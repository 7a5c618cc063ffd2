/** The salary tree: balancing, insertion and deletion in place, through parent links. */
module RankedTree {
  import opened Staff
  import opened TreeShape
  import opened TreeLaws
  import opened TreeLinks
  import opened TreeSpine
  import opened TreeQueries
  import opened TreeMerge
  import opened TreeBump

  datatype Side = LEFT | RIGHT | ROOT

  function Son(q: Shape, father: Side): Shape
    requires q.Bin?
  {
    if father == RIGHT then q.right else q.left
  }

  function WithSon(q: Shape, father: Side, t: Shape): Shape
    requires q.Bin?
  {
    if father == RIGHT then q.(right := t) else q.(left := t)
  }

  /** The descent ends right here, at a node with at most one son. */
  ghost predicate Direct(t: Shape, key: Employee) {
    t.Bin? && SamePlace(t.entry.key, key) && (t.left.Nil? || t.right.Nil?)
  }

  /**
   * How the descent went on below a node: to a son that is taken out at once, further down to a node with the
   * key, or off the tree.
   */
  datatype Way = DIRECT | BELOW | MISSED

  ghost function WayOf(c: Shape, key: Employee): Way {
    if !Finds(c, key) then MISSED else if Direct(c, key) then DIRECT else BELOW
  }

  /** A key that the descent meets can be taken out, and comes with the grade that is stored with it. */
  ghost predicate Ready(t: Shape, key: Employee, grade: int) {
    Finds(t, key) ==> Removable(t, key) && grade == Found(t, key).1.grade
  }

  /** The son of a node that has at most one. */
  function OnlySon(t: Shape): Shape
    requires t.Bin?
  {
    if t.left.Nil? then t.right else t.left
  }

  /** The other son of `p` besides `c`. */
  function Sibling(p: Tnode?, c: Tnode): Tnode?
    reads Only(p)
  {
    if p == null then null else if p.left == c then p.right else p.left
  }

  /** `father` names the son of `parent` that `c` is. */
  predicate OnSide(parent: Tnode?, father: Side, c: Tnode)
    reads Only(parent)
  {
    parent != null ==> if father == RIGHT then parent.right == c else parent.left == c
  }

  class Tree {
    var root: Tnode?
    var counter: int
    ghost var shape: Shape

    /**
     * The links spell out `shape`, every cache and parent link is exact, the heights are balanced and the
     * counter is the number of nodes.
     */
    ghost predicate Exact()
      reads this, Nodes(shape)
    {
      Distinct(shape) && Rep(shape, null) && root == Root(shape) && counter == Size(shape) && Avl(shape)
    }

    /** The tree's invariant: the keys are strictly sorted as well. */
    ghost predicate Valid()
      reads this, Nodes(shape)
    {
      Exact() && Sorted(InOrder(shape))
    }

    ghost function Contents(): seq<Entry>
      reads this
    {
      InOrder(shape)
    }

    constructor ()
      ensures Valid() && Contents() == [] && shape == Nil
    {
      root, counter, shape := null, 0, Nil;
    }

    /** `c` is what its parent (or the tree) points at, and the parent's other son is elsewhere. */
    ghost predicate Hangs(t: Shape, p: Tnode?)
      requires t.Bin?
      reads this, Only(p)
    {
      if p == null then root == t.node
      else
        && p !in Nodes(t) && p.left != p && p.right != p
        && (p.left == t.node || p.right == t.node)
        && (p.left != t.node || p.right !in Nodes(t))
        && (p.right != t.node || p.left !in Nodes(t))
    }

    /**
     * The parent's son `c` has become `c'` and the parent is otherwise as it was, up to the caches
     * that its own visit recomputes; its grade sum is the old one or freshly exact.
     */
    twostate predicate Relinked(p: Tnode?, c: Tnode, new c': Tnode?)
      reads this, Only(p), if p == null then {} else {p.left, p.right}
    {
      if p == null then root == c'
      else
        && root == old(root)
        && p.key == old(p.key) && p.data == old(p.data) && p.tGrade == old(p.tGrade) && p.parent == old(p.parent)
        && p.left == (if old(p.left) == c then c' else old(p.left))
        && p.right == (if old(p.left) == c then old(p.right) else c')
        && (p.sumGrades == old(p.sumGrades) || p.sumGrades == p.tGrade + SumOf(p.left) + SumOf(p.right))
    }

    /** Neither the tree's root nor any of these nodes has changed. */
    twostate predicate Untouched(p: Tnode?, ns: set<Tnode>)
      reads this, Only(p), ns
    {
      root == old(root) && (p != null ==> unchanged(p)) && forall n :: n in ns && old(allocated(n)) ==> unchanged(n)
    }

    /** The tail both rotations share: the subtree `t` takes the place of `tnode` below `parent`. */
    method RelinkParent(parent: Tnode?, left: bool, tnode: Tnode, son: Tnode, ghost t: Shape, ghost q: Tnode?)
      requires t.Bin? && son == t.node && Rep(t, q) && Distinct(t) && tnode in Nodes(t) && parent !in Nodes(t)
      requires parent == null ==> root == tnode
      requires parent != null ==> parent.left != parent && parent.right != parent
      requires parent != null && left ==> parent.left == tnode && parent.right !in Nodes(t)
      requires parent != null && !left ==> parent.right == tnode && parent.left !in Nodes(t)
      modifies this`root, Only(parent), son`parent
      ensures Rep(t, parent)
      ensures Relinked(parent, tnode, son)
    {
      hide Rep, Linked, Distinct;
      NodesAllocated(t);
      if parent != null {
        var tmpG := 0;
        if left {
          parent.left := son;
          if parent.right != null {
            tmpG := parent.right.sumGrades;
          }
        } else {
          parent.right := son;
          if parent.left != null {
            tmpG := parent.left.sumGrades;
          }
        }
        SetParent(son, parent, t, q);
        parent.height := AdjustHeight(parent);
        parent.treeNodes := GetDegree(parent);
        parent.sumGrades := parent.tGrade + son.sumGrades + tmpG;
      } else {
        root := son;
        SetParent(son, null, t, q);
      }
    }

    method RightRotate(tnode: Tnode, ghost t: Shape)
      requires t.Bin? && t.node == tnode && t.left.Bin? && Distinct(t)
      requires Linked(t, tnode.parent) && Hangs(t, tnode.parent)
      modifies this`root, Nodes(t), Only(tnode.parent)
      ensures Rep(RotateRight(t), old(tnode.parent))
      ensures Relinked(old(tnode.parent), tnode, Root(RotateRight(t)))
    {
      var left := true;
      var parent := tnode.parent;
      if parent != null && parent.left != tnode {
        left := false;
      }
      var leftson := tnode.left;
      RotateRightKeeps(t);
      LiftLeft(tnode, t);
      RelinkParent(parent, left, tnode, leftson, RotateRight(t), tnode);
    }

    method LeftRotate(tnode: Tnode, ghost t: Shape)
      requires t.Bin? && t.node == tnode && t.right.Bin? && Distinct(t)
      requires Linked(t, tnode.parent) && Hangs(t, tnode.parent)
      modifies this`root, Nodes(t), Only(tnode.parent)
      ensures Rep(RotateLeft(t), old(tnode.parent))
      ensures Relinked(old(tnode.parent), tnode, Root(RotateLeft(t)))
    {
      var left := true;
      var parent := tnode.parent;
      if parent != null && parent.left != tnode {
        left := false;
      }
      var rightson := tnode.right;
      RotateLeftKeeps(t);
      LiftRight(tnode, t);
      RelinkParent(parent, left, tnode, rightson, RotateLeft(t), tnode);
    }

    /** First half of a left-right double rotation. */
    method LeftRotateSon(tnode: Tnode, ghost t: Shape)
      requires t.Bin? && t.node == tnode && Distinct(t) && t.left.Bin? && t.left.right.Bin?
      requires Rep(t, tnode.parent) && Hangs(t, tnode.parent)
      modifies this`root, Nodes(t)
      ensures tnode.parent == old(tnode.parent) && root == old(root)
      ensures var u := t.(left := RotateLeft(t.left));
              Distinct(u) && Nodes(u) == Nodes(t) && Linked(u, tnode.parent) && Hangs(u, tnode.parent)
    {
      NodesAllocated(t);
      RotateLeftKeeps(t.left);
      assert Rep(t.left, tnode) && Rep(t.right, tnode);
      assert Linked(t.left, tnode);
      LeftRotate(tnode.left, t.left);
      assert Rep(t.right, tnode);
    }

    /** First half of a right-left double rotation. */
    method RightRotateSon(tnode: Tnode, ghost t: Shape)
      requires t.Bin? && t.node == tnode && Distinct(t) && t.right.Bin? && t.right.left.Bin?
      requires Rep(t, tnode.parent) && Hangs(t, tnode.parent)
      modifies this`root, Nodes(t)
      ensures tnode.parent == old(tnode.parent) && root == old(root)
      ensures var u := t.(right := RotateRight(t.right));
              Distinct(u) && Nodes(u) == Nodes(t) && Linked(u, tnode.parent) && Hangs(u, tnode.parent)
    {
      NodesAllocated(t);
      RotateRightKeeps(t.right);
      assert Rep(t.left, tnode) && Rep(t.right, tnode);
      assert Linked(t.right, tnode);
      RightRotate(tnode.right, t.right);
      assert Rep(t.left, tnode);
    }

    /** Rotates where the factor asks for it. Where it does not, nothing happens, whatever the sums are. */
    method BalanceNode(tnode: Tnode, ghost t: Shape)
      requires t.Bin? && t.node == tnode && Distinct(t)
      requires || (Rep(t, tnode.parent) && (Hangs(t, tnode.parent) || -1 <= Factor(t) <= 1))
               || (Leveled(t, tnode.parent) && -1 <= Factor(t) <= 1)
      modifies this`root, Nodes(t), Only(tnode.parent)
      ensures old(Rep(t, tnode.parent)) ==> Rep(Balance(t), old(tnode.parent))
      ensures old(Rep(t, tnode.parent) && Hangs(t, tnode.parent)) ==>
                Relinked(old(tnode.parent), tnode, Root(Balance(t)))
      ensures -1 <= Factor(t) <= 1 ==> Untouched(old(tnode.parent), Nodes(t))
    {
      hide Rep, Linked, Leveled, Distinct, Height, Size, Sum;
      NodesAllocated(t);
      if Rep(t, tnode.parent) {
        FactorExact(t, tnode.parent);
        if t.left.Bin? { FactorExact(t.left, tnode); }
        if t.right.Bin? { FactorExact(t.right, tnode); }
      } else {
        LeveledFactor(t, tnode.parent);
      }
      var bFactor := GetBFactor(tnode);
      if bFactor > 1 {
        if GetBFactor(tnode.left) < 0 {
          LeftRotateSon(tnode, t);
          RightRotate(tnode, t.(left := RotateLeft(t.left)));
        } else {
          RightRotate(tnode, t);
        }
      } else if bFactor < -1 {
        if GetBFactor(tnode.right) > 0 {
          RightRotateSon(tnode, t);
          LeftRotate(tnode, t.(right := RotateRight(t.right)));
        } else {
          LeftRotate(tnode, t);
        }
      }
    }

    /** Everything below the top node is exact, and so is its sum; nothing about its height and its size. */
    ghost predicate Summed(t: Shape)
      requires t.Bin?
      reads Nodes(t)
    {
      Linked(t, t.node.parent) && t.node.sumGrades == Sum(t)
    }

    /** How insertion and deletion leave each node of the descent: caches recomputed, then balanced. */
    method Settle(tnode: Tnode, ghost t: Shape)
      requires t.Bin? && t.node == tnode && Distinct(t)
      requires || (Summed(t) && (Hangs(t, tnode.parent) || -1 <= Factor(t) <= 1))
               || (Leveled(t, tnode.parent) && -1 <= Factor(t) <= 1)
      modifies this`root, Nodes(t), Only(tnode.parent)
      ensures old(Summed(t)) ==> Rep(Balance(t), old(tnode.parent))
      ensures old(Summed(t) && Hangs(t, tnode.parent)) ==> Relinked(old(tnode.parent), tnode, Root(Balance(t)))
      ensures old(Leveled(t, tnode.parent)) && -1 <= Factor(t) <= 1 ==> Untouched(old(tnode.parent), Nodes(t))
    {
      hide Rep, Linked, Leveled, Distinct, Balance, Sum;
      NodesAllocated(t);
      Recache(tnode, t);
      BalanceNode(tnode, t);
    }

    method Recache(tnode: Tnode, ghost t: Shape)
      requires t.Bin? && t.node == tnode && Distinct(t) && (Summed(t) || Leveled(t, tnode.parent))
      modifies tnode`height, tnode`treeNodes
      ensures old(Summed(t)) ==> Rep(t, tnode.parent)
      ensures old(Leveled(t, tnode.parent)) ==> unchanged(tnode)
    {
      NodesAllocated(t);
      if Leveled(t, tnode.parent) {
        LeveledExact(t, tnode.parent);
      }
      if Summed(t) {
        assert Rep(t.left, tnode) && Rep(t.right, tnode);
      }
      tnode.height := AdjustHeight(tnode);
      tnode.treeNodes := GetDegree(tnode);
    }

    method AttachRight(tnode: Tnode, newNode: Tnode, ghost t: Shape, ghost e: Entry)
      requires t.Bin? && t.node == tnode && Distinct(t) && t.right.Nil? && newNode !in Nodes(t)
      requires Rep(t, tnode.parent) && Rep(Leaf(newNode, e), newNode.parent)
      modifies tnode`right, tnode`treeNodes, tnode`sumGrades, newNode`parent
      ensures Linked(t.(right := Leaf(newNode, e)), tnode.parent) && tnode.sumGrades == Sum(t) + e.grade
    {
      NodesAllocated(t);
      assert Rep(t.left, tnode);
      tnode.right := newNode;
      newNode.parent := tnode;
      tnode.treeNodes := tnode.treeNodes + 1;
      tnode.sumGrades := tnode.sumGrades + newNode.tGrade;
    }

    /** The way down to the right, up to the point where the node itself is settled. */
    method InsertBelowRight(tnode: Tnode, newNode: Tnode, ghost t: Shape, ghost e: Entry)
      requires t.Bin? && t.node == tnode && Distinct(t) && t.right.Bin?
      requires Linked(t, tnode.parent) && newNode !in Nodes(t) && tnode.left != tnode && tnode.right != tnode
      requires Rep(Leaf(newNode, e), newNode.parent) && tnode.left != newNode && tnode.right != newNode
      modifies this`root, Nodes(t.right), tnode, newNode
      ensures root == old(root) && tnode.parent == old(tnode.parent)
      ensures var u := t.(right := Insert(t.right, newNode, e));
              Linked(u, tnode.parent) && (tnode.sumGrades == old(tnode.sumGrades) || tnode.sumGrades == Sum(u))
      decreases t, 0
    {
      NodesAllocated(t);
      InsertKeeps(t.right, newNode, e);
      assert Rep(t.left, tnode) && Rep(t.right, tnode) && Linked(t.right, tnode);
      InsertN(tnode.right, newNode, t.right, e);
      assert Rep(t.left, tnode);
    }

    method AttachLeft(tnode: Tnode, newNode: Tnode, ghost t: Shape, ghost e: Entry)
      requires t.Bin? && t.node == tnode && Distinct(t) && t.left.Nil? && newNode !in Nodes(t)
      requires Rep(t, tnode.parent) && Rep(Leaf(newNode, e), newNode.parent)
      modifies tnode`left, tnode`treeNodes, tnode`sumGrades, newNode`parent
      ensures Linked(t.(left := Leaf(newNode, e)), tnode.parent) && tnode.sumGrades == Sum(t) + e.grade
    {
      NodesAllocated(t);
      assert Rep(t.right, tnode);
      tnode.left := newNode;
      newNode.parent := tnode;
      tnode.treeNodes := tnode.treeNodes + 1;
      tnode.sumGrades := tnode.sumGrades + newNode.tGrade;
    }

    /** The way down to the left, up to the point where the node itself is settled. */
    method InsertBelowLeft(tnode: Tnode, newNode: Tnode, ghost t: Shape, ghost e: Entry)
      requires t.Bin? && t.node == tnode && Distinct(t) && t.left.Bin?
      requires Linked(t, tnode.parent) && newNode !in Nodes(t) && tnode.left != tnode && tnode.right != tnode
      requires Rep(Leaf(newNode, e), newNode.parent) && tnode.left != newNode && tnode.right != newNode
      modifies this`root, Nodes(t.left), tnode, newNode
      ensures root == old(root) && tnode.parent == old(tnode.parent)
      ensures var u := t.(left := Insert(t.left, newNode, e));
              Linked(u, tnode.parent) && (tnode.sumGrades == old(tnode.sumGrades) || tnode.sumGrades == Sum(u))
      decreases t, 0
    {
      NodesAllocated(t);
      InsertKeeps(t.left, newNode, e);
      assert Rep(t.left, tnode) && Rep(t.right, tnode) && Linked(t.left, tnode);
      InsertN(tnode.left, newNode, t.left, e);
      assert Rep(t.right, tnode);
    }

    /** Everything an insertion frame does before it settles its own node. */
    method InsertSonRight(tnode: Tnode, newNode: Tnode, ghost t: Shape, ghost e: Entry)
      requires t.Bin? && t.node == tnode && Distinct(t) && Rep(t, tnode.parent) && newNode !in Nodes(t)
      requires Rep(Leaf(newNode, e), newNode.parent)
      requires tnode.left != newNode && tnode.right != newNode
      modifies this`root, Nodes(t), newNode
      ensures root == old(root) && tnode.parent == old(tnode.parent)
      ensures var u := t.(right := Insert(t.right, newNode, e)); Linked(u, tnode.parent) && tnode.sumGrades == Sum(u)
      decreases t, 1
    {
      NodesAllocated(t);
      InsertKeeps(t.right, newNode, e);
      assert Rep(t.left, tnode) && Rep(t.right, tnode);
      if tnode.right == null {
        AttachRight(tnode, newNode, t, e);
      } else {
        tnode.sumGrades := tnode.sumGrades + newNode.tGrade;
        InsertBelowRight(tnode, newNode, t, e);
      }
    }

    method InsertRight(tnode: Tnode, newNode: Tnode, ghost t: Shape, ghost e: Entry)
      requires t.Bin? && t.node == tnode && Distinct(t)
      requires Rep(t, tnode.parent) && Hangs(t, tnode.parent)
      requires newNode !in Nodes(t) && newNode != tnode.parent && Rep(Leaf(newNode, e), newNode.parent)
      requires tnode.parent != null ==> newNode != tnode.parent.left && newNode != tnode.parent.right
      modifies this`root, Nodes(t), newNode, Only(tnode.parent)
      ensures var u := Balance(t.(right := Insert(t.right, newNode, e)));
              Rep(u, old(tnode.parent)) && Relinked(old(tnode.parent), tnode, Root(u))
      decreases t, 2
    {
      NodesAllocated(t);
      InsertKeeps(t.right, newNode, e);
      InsertSonRight(tnode, newNode, t, e);
      Settle(tnode, t.(right := Insert(t.right, newNode, e)));
    }

    /** Everything an insertion frame does before it settles its own node. */
    method InsertSonLeft(tnode: Tnode, newNode: Tnode, ghost t: Shape, ghost e: Entry)
      requires t.Bin? && t.node == tnode && Distinct(t) && Rep(t, tnode.parent) && newNode !in Nodes(t)
      requires Rep(Leaf(newNode, e), newNode.parent)
      requires tnode.left != newNode && tnode.right != newNode
      modifies this`root, Nodes(t), newNode
      ensures root == old(root) && tnode.parent == old(tnode.parent)
      ensures var u := t.(left := Insert(t.left, newNode, e)); Linked(u, tnode.parent) && tnode.sumGrades == Sum(u)
      decreases t, 1
    {
      NodesAllocated(t);
      InsertKeeps(t.left, newNode, e);
      assert Rep(t.left, tnode) && Rep(t.right, tnode);
      if tnode.left == null {
        AttachLeft(tnode, newNode, t, e);
      } else {
        tnode.sumGrades := tnode.sumGrades + newNode.tGrade;
        InsertBelowLeft(tnode, newNode, t, e);
      }
    }

    method InsertLeft(tnode: Tnode, newNode: Tnode, ghost t: Shape, ghost e: Entry)
      requires t.Bin? && t.node == tnode && Distinct(t)
      requires Rep(t, tnode.parent) && Hangs(t, tnode.parent)
      requires newNode !in Nodes(t) && newNode != tnode.parent && Rep(Leaf(newNode, e), newNode.parent)
      requires tnode.parent != null ==> newNode != tnode.parent.left && newNode != tnode.parent.right
      modifies this`root, Nodes(t), newNode, Only(tnode.parent)
      ensures var u := Balance(t.(left := Insert(t.left, newNode, e)));
              Rep(u, old(tnode.parent)) && Relinked(old(tnode.parent), tnode, Root(u))
      decreases t, 2
    {
      NodesAllocated(t);
      InsertKeeps(t.left, newNode, e);
      InsertSonLeft(tnode, newNode, t, e);
      Settle(tnode, t.(left := Insert(t.left, newNode, e)));
    }

    method InsertN(tnode: Tnode, newNode: Tnode, ghost t: Shape, ghost e: Entry)
      requires t.Bin? && t.node == tnode && Distinct(t)
      requires Rep(t, tnode.parent) && Hangs(t, tnode.parent)
      requires newNode !in Nodes(t) && newNode != tnode.parent && Rep(Leaf(newNode, e), newNode.parent)
      requires tnode.parent != null ==> newNode != tnode.parent.left && newNode != tnode.parent.right
      modifies this`root, Nodes(t), newNode, Only(tnode.parent)
      ensures Rep(Insert(t, newNode, e), old(tnode.parent))
      ensures Relinked(old(tnode.parent), tnode, Root(Insert(t, newNode, e)))
      decreases t, 3
    {
      assert Linked(t, tnode.parent) && Rep(Leaf(newNode, e), newNode.parent);
      if Less(tnode.key, newNode.key) {
        InsertRight(tnode, newNode, t, e);
      } else {
        InsertLeft(tnode, newNode, t, e);
      }
    }

    /** `tmp` takes the place of `tnode` below `parent`. */
    method HangBelow(parent: Tnode?, father: Side, tnode: Tnode, tmp: Tnode)
      requires parent != tmp && (parent == null ==> root == tnode)
      requires parent != null ==> OnSide(parent, father, tnode) && parent.left != parent.right
      modifies this`root, Only(parent), tmp`parent
      ensures tmp.parent == parent && Relinked(parent, tnode, tmp)
      ensures parent != null ==> parent.sumGrades == old(parent.sumGrades)
    {
      if parent == null {
        root := tmp;
        tmp.parent := null;
      } else {
        if father == RIGHT {
          parent.right := tmp;
        } else {
          parent.left := tmp;
        }
        tmp.parent := parent;
      }
    }

    /** The link surgery of the swap: `tmp` takes the place of `tnode`, and `tnode` that of `tmp`. */
    method ExchangeLinks(tnode: Tnode, parent: Tnode?, father: Side, tmp: Tnode, tmpParent: Tnode)
      requires tnode.left != null && tnode.right != null && tmp.left == null && tmp != tnode
      requires if tmpParent == tnode then tnode.right == tmp else tmpParent.left == tmp && tnode.right != tmp
      requires tmpParent != tmp && tnode.left !in {tnode, tmp, tmpParent, tnode.right}
      requires tnode.right != tnode && tmp.right !in {tnode, tmp, tmpParent, tnode.left, tnode.right}
      requires parent !in {tnode, tmp, tmpParent, tnode.left, tnode.right}
      requires parent == null ==> root == tnode
      requires parent != null ==> parent != tmp.right && OnSide(parent, father, tnode) && parent.left != parent.right
      modifies this`root, Only(parent)
      modifies tnode`left, tnode`right, tnode`parent, tmp`left, tmp`right, tmp`parent
      modifies tmpParent`left, {tnode.left, tnode.right, tmp.right}`parent
      ensures tnode.left == null && tnode.right == old(tmp.right)
      ensures tnode.right != null ==> tnode.right.parent == tnode
      ensures tnode.parent == if tmpParent == tnode then tmp else tmpParent
      ensures tmp.right == if tmpParent == tnode then tnode else old(tnode.right)
      ensures tmpParent != tnode ==> tmpParent.left == tnode && tmp.right.parent == tmp
      ensures tmp.left == old(tnode.left) && tmp.left.parent == tmp && tmp.parent == parent
      ensures Relinked(parent, tnode, tmp)
      ensures parent != null ==> parent.sumGrades == old(parent.sumGrades)
    {
      if tmpParent == tnode {
        tmpParent.right := tnode;
      } else {
        tmpParent.left := tnode;
      }
      tnode.parent := tmpParent;
      var tmpRight := tmp.right;
      HangBelow(parent, father, tnode, tmp);
      tmp.left := tnode.left;
      tnode.left.parent := tmp;
      tmp.right := tnode.right;
      tnode.right.parent := tmp;
      tnode.right := tmpRight;
      if tmpRight != null {
        tmpRight.parent := tnode;
      }
      tnode.left := null;
    }

    /** The caches of the exchanged nodes. */
    method ExchangeCaches(tnode: Tnode, tmp: Tnode)
      requires tmp != tnode && tmp.left != null && tmp.right != null && tmp.left != tmp && tmp.right != tmp
      requires tmp.left != tnode && tnode.right != tnode
      modifies tnode`height, tnode`treeNodes, tnode`sumGrades, tmp`height, tmp`treeNodes, tmp`sumGrades
      ensures tnode.height == old(tmp.height) && tmp.height == old(tnode.height)
      ensures tnode.treeNodes == 1 + (if tnode.right == null then 0 else 1)
      ensures tnode.sumGrades == tnode.tGrade + (if tnode.right == null then 0 else tnode.right.tGrade)
      ensures tmp.treeNodes == old(tnode.treeNodes)
      ensures tmp.sumGrades == tmp.tGrade + tmp.right.sumGrades + tmp.left.sumGrades
    {
      var tmpH, tnodeNodes := tmp.height, tnode.treeNodes;
      tmp.height := tnode.height;
      tnode.treeNodes := 1;
      tnode.sumGrades := tnode.tGrade;
      if tnode.right != null {
        tnode.treeNodes := tnode.treeNodes + 1;
        tnode.sumGrades := tnode.sumGrades + tnode.right.tGrade;
      }
      tnode.height := tmpH;
      tmp.treeNodes := tnodeNodes;
      tmp.sumGrades := tmp.tGrade + tmp.right.sumGrades;
      if tmp.left != null {
        tmp.sumGrades := tmp.sumGrades + tmp.left.sumGrades;
      }
    }

    method Exchange(tnode: Tnode, parent: Tnode?, father: Side, tmp: Tnode, tmpParent: Tnode)
      requires tnode.left != null && tnode.right != null && tmp.left == null && tmp != tnode
      requires if tmpParent == tnode then tnode.right == tmp else tmpParent.left == tmp && tnode.right != tmp
      requires tmpParent != tmp && tnode.left !in {tnode, tmp, tmpParent, tnode.right}
      requires tnode.right != tnode && tmp.right !in {tnode, tmp, tmpParent, tnode.left, tnode.right}
      requires parent !in {tnode, tmp, tmpParent, tnode.left, tnode.right}
      requires parent == null ==> root == tnode
      requires parent != null ==> parent != tmp.right && OnSide(parent, father, tnode) && parent.left != parent.right
      requires parent != null ==> parent.left != parent && parent.right != parent
      modifies this`root, Only(parent), {tnode, tmp, tmpParent, tnode.left, tnode.right, tmp.right}
      ensures Exchanged(tnode, tmp, tmpParent, old(tnode.left), old(tnode.right), old(tmp.right))
      ensures tmp.parent == parent && Relinked(parent, tnode, tmp)
      ensures parent != null ==> parent.sumGrades == old(parent.sumGrades)
    {
      ExchangeLinks(tnode, parent, father, tmp, tmpParent);
      ExchangeCaches(tnode, tmp);
    }

    /** The surgery seen on shapes. */
    method ExchangeShapes(tnode: Tnode, parent: Tnode?, father: Side, tmp: Tnode, tmpParent: Tnode, ghost t: Shape)
      requires t.Bin? && t.node == tnode && t.left.Bin? && t.right.Bin? && Distinct(t) && Avl(t)
      requires Hangs(t, parent) && OnSide(parent, father, tnode)
      requires tnode.key == t.entry.key && tnode.data == t.entry.data && tnode.tGrade == t.entry.grade
      requires tnode.left == t.left.node && tnode.right == t.right.node
      requires tnode.height == Height(t) && tnode.treeNodes == Size(t)
      requires tmp == Leftmost(t.right).0 && tmpParent == if t.right.left.Nil? then tnode else SpineEnd(t.right)
      requires Rep(t.left, tnode) && SpineRep(t.right, tnode, t.entry.grade - Leftmost(t.right).1.grade)
      modifies this`root, Nodes(t), Only(parent)
      ensures Rep(Swapped(t), parent)
      ensures Relinked(parent, tnode, tmp)
      ensures parent != null ==> parent.sumGrades == old(parent.sumGrades)
    {
      hide Rep, Linked, Avl, Balance, Height, Size, Sum, Distinct;
      NodesAllocated(t);
      ExchangeApart(t, parent, tmpParent);
      Exchange(tnode, parent, father, tmp, tmpParent);
      SurgeryDone(t);
    }

    /** `tnode`, which has two sons, and its successor exchange places; order is broken until the removal below. */
    method SwapWithSuccessor(tnode: Tnode, parent: Tnode?, father: Side, ghost t: Shape) returns (tmp: Tnode)
      requires t.Bin? && t.node == tnode && t.left.Bin? && t.right.Bin? && Distinct(t) && Avl(t)
      requires Rep(t, parent) && Hangs(t, parent) && OnSide(parent, father, tnode)
      modifies this`root, Nodes(t), Only(parent)
      ensures tmp == Leftmost(t.right).0
      ensures Rep(Swapped(t), parent)
      ensures Relinked(parent, tnode, tmp)
      ensures parent != null ==> parent.sumGrades == old(parent.sumGrades)
    {
      NodesAllocated(t);
      SpineInside(t.right);
      assert Rep(t.left, tnode) && Rep(t.right, tnode);
      var tmpParent;
      tmp, tmpParent := FindSuccessor(tnode, t.right);
      LeftmostGrade(t.right, tnode);
      ShiftSums(tnode.right, tmp.tGrade, tnode.tGrade, t.right, tnode);
      assert Rep(t.left, tnode);
      ExchangeShapes(tnode, parent, father, tmp, tmpParent, t);
    }

    /** Gives `parent` another son on one side and brings `parent` up to date. */
    method LinkAndBalance(parent: Tnode, father: Side, c: Tnode?, ghost q: Shape)
      requires q.Bin? && q.node == parent && Distinct(q) && Hangs(q, parent.parent)
      requires parent.key == q.entry.key && parent.data == q.entry.data && parent.tGrade == q.entry.grade
      requires Rep(q.left, parent) && Rep(q.right, parent)
      requires if father == RIGHT then c == Root(q.right) && parent.left == Root(q.left)
               else c == Root(q.left) && parent.right == Root(q.right)
      modifies this`root, Nodes(q), Only(parent.parent)
      ensures Rep(Balance(q), old(parent.parent))
      ensures Relinked(old(parent.parent), parent, Root(Balance(q)))
    {
      NodesAllocated(q);
      if father == RIGHT {
        parent.right := c;
      } else {
        parent.left := c;
      }
      Refresh(parent, q);
      BalanceNode(parent, q);
    }

    /** What was below `tnode` moves up; the parent, if any, is brought up to date at once. */
    method Replace(c: Tnode?, parent: Tnode?, father: Side, ghost u: Shape, ghost tnode: Tnode, ghost q: Shape)
      requires c == Root(u) && Distinct(u) && Rep(u, tnode) && tnode !in Nodes(u)
      requires parent != null ==>
                 && q.Bin? && q.node == parent && Distinct(q) && Hangs(q, parent.parent)
                 && father != ROOT && Son(q, father) == u
                 && parent.key == q.entry.key && parent.data == q.entry.data && parent.tGrade == q.entry.grade
                 && (if father == RIGHT then parent.left == Root(q.left) && Rep(q.left, parent)
                     else parent.right == Root(q.right) && Rep(q.right, parent))
      modifies this`root, Nodes(u), if parent == null then {} else Nodes(q) + Only(parent.parent)
      ensures parent == null ==> Rep(u, null) && root == c
      ensures parent != null ==>
                Rep(Balance(q), old(parent.parent)) && Relinked(old(parent.parent), parent, Root(Balance(q)))
    {
      NodesAllocated(u);
      if parent == null {
        root := c;
        SetParent(c, null, u, tnode);
      } else {
        NodesAllocated(q);
        assert Only(c) <= Nodes(u);
        SetParent(c, parent, u, tnode);
        LinkAndBalance(parent, father, c, q);
      }
    }

    /** Clears the links of a node with at most one son and hands that son over. */
    method Detach(tnode: Tnode, ghost t: Shape, ghost p: Tnode?) returns (tmp: Tnode?)
      requires t.Bin? && t.node == tnode && Distinct(t) && Rep(t, p) && (t.left.Nil? || t.right.Nil?)
      modifies tnode
      ensures tmp == Root(OnlySon(t)) && Rep(OnlySon(t), tnode)
    {
      NodesAllocated(t);
      assert Rep(t.left, tnode) && Rep(t.right, tnode);
      tmp := null;
      if tnode.left == null && tnode.right != null {
        tmp := tnode.right;
        tnode.parent := null;
        tnode.right := null;
      } else if tnode.left != null && tnode.right == null {
        tmp := tnode.left;
        tnode.parent := null;
        tnode.left := null;
      }
    }

    /** Takes out a node with at most one son. Its parent, whose shape is `q`, is brought up to date at once. */
    method Unlink(tnode: Tnode, parent: Tnode?, father: Side, ghost t: Shape, ghost q: Shape)
      requires t.Bin? && t.node == tnode && Distinct(t) && Rep(t, parent) && (t.left.Nil? || t.right.Nil?)
      requires parent == null ==> root == tnode
      requires parent != null ==>
                 && q.Bin? && q.node == parent && Distinct(q) && father != ROOT && Son(q, father) == t
                 && Linked(q, parent.parent) && Hangs(q, parent.parent)
      modifies this`root, Nodes(t), if parent == null then {} else Nodes(q) + Only(parent.parent)
      ensures parent == null ==> Rep(OnlySon(t), null) && root == Root(OnlySon(t))
      ensures parent != null ==>
                var v := Balance(WithSon(q, father, OnlySon(t)));
                Rep(v, old(parent.parent)) && Relinked(old(parent.parent), parent, Root(v))
    {
      NodesAllocated(t);
      NodesAllocated(q);
      assert Rep(t.left, tnode) && Rep(t.right, tnode);
      ghost var u := OnlySon(t);
      ghost var v := if parent == null then Nil else WithSon(q, father, u);
      if parent != null {
        assert Rep(q.left, parent) && Rep(q.right, parent);
        assert Nodes(v) == Nodes(q) - {tnode};
      }
      var tmp := Detach(tnode, t, parent);
      Replace(tmp, parent, father, u, tnode, v);
    }

    /** The subtree that hangs below any node of an exact AVL tree is itself exact and balanced. */
    lemma {:induction false} Locate(t: Shape, p: Tnode?, n: Tnode) returns (u: Shape)
      requires n in Nodes(t) && t.Bin? && Distinct(t) && Avl(t) && Rep(t, p)
      ensures u.Bin? && u.node == n && Distinct(u) && Avl(u) && Nodes(u) <= Nodes(t)
      ensures Rep(u, n.parent) && Only(n.parent) <= Nodes(t) + Only(p)
      decreases t
    {
      assert Rep(t.left, t.node) && Rep(t.right, t.node);
      if n == t.node {
        u := t;
      } else if n in Nodes(t.left) {
        u := Locate(t.left, t.node, n);
      } else {
        u := Locate(t.right, t.node, n);
      }
    }

    lemma {:induction false} LocateSettled(v: Shape, p: Tnode?, n: Tnode) returns (u: Shape)
      requires v.Bin? && v.node == n && Distinct(v) && Avl(v.left) && Avl(v.right) && -2 <= Factor(v) <= 2
      requires Rep(Balance(v), p)
      ensures u.Bin? && u.node == n && Distinct(u) && -1 <= Factor(u) <= 1 && Nodes(u) <= Nodes(v)
      ensures Rep(u, n.parent) && Summed(u) && Leveled(u, n.parent)
      ensures Only(n.parent) <= Nodes(v) + Only(p) && Nodes(Balance(v)) == Nodes(v)
    {
      BalanceKeeps(v);
      BalanceAvl(v);
      u := Locate(Balance(v), p, n);
      RepLeveled(u, n.parent);
    }

    /**
     * The tail of every deletion frame. `v` is the shape at this frame before its own balancing. When the
     * removed node was a son of `tnode` (`DIRECT`), the frame below has already balanced `v`, `tnode` may
     * stand deeper now, and this tail changes nothing; neither does it when nothing was removed.
     */
    method Resettle(tnode: Tnode, ghost way: Way, ghost v: Shape, ghost p: Tnode?)
      requires v.Bin? && v.node == tnode && Distinct(v)
      requires Avl(v.left) && Avl(v.right) && -2 <= Factor(v) <= 2
      requires match way
               case DIRECT => Rep(Balance(v), p)
               case BELOW => Linked(v, p) && tnode.parent == p && Hangs(v, p) && tnode.sumGrades == Sum(v)
               case MISSED => Leveled(v, p) && tnode.parent == p && -1 <= Factor(v) <= 1
      modifies this`root, Nodes(v), Only(p)
      ensures match way
              case DIRECT => Rep(Balance(v), p) && Untouched(p, {})
              case BELOW => Rep(Balance(v), p) && Relinked(p, tnode, Root(Balance(v)))
              case MISSED => Untouched(p, Nodes(v))
    {
      hide Rep, Linked, Leveled, Avl, Balance, Sum, Height, Factor;
      NodesAllocated(v);
      ghost var u := v;
      if way.DIRECT? {
        u := LocateSettled(v, p, tnode);
      }
      Settle(tnode, u);
    }

    /** What one frame of a deletion has done: the key is out, or it was not there and the sums on the way are short. */
    twostate predicate Gone(t: Shape, p: Tnode?, key: Employee, grade: int)
      requires t.Bin?
      reads this, Nodes(t), Only(p), if p == null then {} else {p.left, p.right}
      reads Nodes(Delete(t, key))
    {
      if Finds(t, key) then Rep(Delete(t, key), p) && Relinked(p, t.node, Root(Delete(t, key)))
      else Short(t, p, key, grade) && Untouched(p, {})
    }

    /** A node whose one son has been exchanged, and whose other subtree is as it was, is linked again. */
    twostate lemma LinkedAgain(tnode: Tnode, new t: Shape, new p: Tnode?, new v: Shape)
      requires t.Bin? && v.Bin? && t.node == tnode && Distinct(t)
      requires old(allocated(t)) && old(allocated(p)) && old(Linked(t, p))
      requires || (v == t.(right := v.right) && t.right.Bin? && Rep(t.left, tnode) && Rep(v.right, tnode)
                   && Relinked(tnode, t.right.node, Root(v.right)))
               || (v == t.(left := v.left) && t.left.Bin? && Rep(t.right, tnode) && Rep(v.left, tnode)
                   && Relinked(tnode, t.left.node, Root(v.left)))
      ensures Linked(v, p) && (tnode.sumGrades == old(tnode.sumGrades) || tnode.sumGrades == Sum(v))
    {
    }

    lemma {:induction false} LinkedParts(t: Shape, p: Tnode?)
      requires t.Bin? && Distinct(t) && Linked(t, p)
      ensures Rep(t.left, t.node) && Rep(t.right, t.node)
      ensures t.left.Bin? ==> Linked(t.left, t.node) && Hangs(t.left, t.node)
      ensures t.right.Bin? ==> Linked(t.right, t.node) && Hangs(t.right, t.node)
      ensures t.node.parent == p && t.node.left == Root(t.left) && t.node.right == Root(t.right)
    {
    }

    /** The way down to the right from one frame of the descent, with what it leaves for the frame's own tail. */
    method DescendRight(tnode: Tnode, parent: Tnode?, key: Employee, grade: int, ghost t: Shape)
      requires t.Bin? && t.node == tnode && Distinct(t) && Avl(t)
      requires Linked(t, parent) && Hangs(t, parent) && Ready(t.right, key, grade)
      modifies this`root, Nodes(t), Only(parent)
      ensures var v := t.(right := Delete(t.right, key));
              match WayOf(t.right, key)
              case DIRECT => Rep(Balance(v), parent) && Relinked(parent, tnode, Root(Balance(v)))
              case BELOW =>
                && Linked(v, parent) && tnode.parent == parent
                && (tnode.sumGrades == old(tnode.sumGrades) || tnode.sumGrades == Sum(v))
                && root == old(root) && (parent != null ==> unchanged(parent))
              case MISSED =>
                && Rep(t.left, tnode) && Short(t.right, tnode, key, grade) && unchanged(tnode)
                && root == old(root) && (parent != null ==> unchanged(parent))
      decreases Size(t), 0
    {
      hide Delete, Insert, Removable, Found, LeftPathAbove, Rep, Linked, Height, Sum, Balance;
      NodesAllocated(t);
      LinkedParts(t, parent);
      DeleteN(tnode.right, tnode, key, RIGHT, grade, t.right, t);
      if WayOf(t.right, key).BELOW? {
        LinkedAgain(tnode, t, parent, t.(right := Delete(t.right, key)));
      }
    }

    /** The way down to the left from one frame of the descent, with what it leaves for the frame's own tail. */
    method DescendLeft(tnode: Tnode, parent: Tnode?, key: Employee, grade: int, ghost t: Shape)
      requires t.Bin? && t.node == tnode && Distinct(t) && Avl(t)
      requires Linked(t, parent) && Hangs(t, parent) && Ready(t.left, key, grade)
      modifies this`root, Nodes(t), Only(parent)
      ensures var v := t.(left := Delete(t.left, key));
              match WayOf(t.left, key)
              case DIRECT => Rep(Balance(v), parent) && Relinked(parent, tnode, Root(Balance(v)))
              case BELOW =>
                && Linked(v, parent) && tnode.parent == parent
                && (tnode.sumGrades == old(tnode.sumGrades) || tnode.sumGrades == Sum(v))
                && root == old(root) && (parent != null ==> unchanged(parent))
              case MISSED =>
                && Rep(t.right, tnode) && Short(t.left, tnode, key, grade) && unchanged(tnode)
                && root == old(root) && (parent != null ==> unchanged(parent))
      decreases Size(t), 0
    {
      hide Delete, Insert, Removable, Found, LeftPathAbove, Rep, Linked, Height, Sum, Balance;
      NodesAllocated(t);
      LinkedParts(t, parent);
      DeleteN(tnode.left, tnode, key, LEFT, grade, t.left, t);
      if WayOf(t.left, key).BELOW? {
        LinkedAgain(tnode, t, parent, t.(left := Delete(t.left, key)));
      }
    }

    /** The parent sees the same sums below it when the subtree was exact before and is exact now. */
    twostate lemma StaysLinked(p: Tnode?, new other: Tnode?, new w: Shape)
      requires old(allocated(w)) && old(Rep(w, p)) && Rep(w, p) && Untouched(p, {})
      requires other != null ==> old(allocated(other)) && unchanged(other)
      requires p != null ==> {p.left, p.right} == {other, Root(w)}
      ensures p != null ==> SumOf(p.left) == old(SumOf(p.left)) && SumOf(p.right) == old(SumOf(p.right))
    {
    }

    /** The part of a deletion frame that follows the decrease of its sum. */
    method FrameRight(tnode: Tnode, parent: Tnode?, key: Employee, grade: int, ghost t: Shape)
      requires t.Bin? && t.node == tnode && Distinct(t) && Avl(t)
      requires Linked(t, parent) && Hangs(t, parent) && Placed(t, parent) && tnode.sumGrades == Sum(t) - grade
      requires Ready(t.right, key, grade)
      requires Less(t.entry.key, key)
      modifies this`root, Nodes(t), Only(parent)
      ensures Gone(t, parent, key, grade)
      decreases Size(t), 1
    {
      hide Delete, Balance, Rep, Linked, Leveled, Short, Avl, Distinct, Removable, Finds, Found, Factor, Height, Size, Sum;
      ghost var v := t.(right := Delete(t.right, key));
      NodesAllocated(t);
      DeleteSonRight(t, v, key);
      ghost var other := Sibling(parent, tnode);
      assert other !in Nodes(t);
      DescendRight(tnode, parent, key, grade, t);
      label Down:
      if WayOf(t.right, key).MISSED? {
        ShortAbove(t, parent, key, grade);
      }
      Resettle(tnode, WayOf(t.right, key), v, parent);
      if WayOf(t.right, key).DIRECT? {
        StaysLinked@Down(parent, other, Balance(v));
      }
    }

    /** A frame of the descent to the right: the sum goes down on the way in, the rest is settled on the way out. */
    method DeleteRight(tnode: Tnode, parent: Tnode?, key: Employee, grade: int, ghost t: Shape)
      requires t.Bin? && t.node == tnode && Distinct(t) && Avl(t)
      requires Rep(t, parent) && Hangs(t, parent) && Ready(t.right, key, grade)
      requires Less(t.entry.key, key)
      modifies this`root, Nodes(t), Only(parent)
      ensures Gone(t, parent, key, grade)
      decreases Size(t), 2
    {
      assert Rep(t.left, tnode) && Rep(t.right, tnode);
      tnode.sumGrades := tnode.sumGrades - grade;
      FrameRight(tnode, parent, key, grade, t);
    }

    /** The part of a deletion frame that follows the decrease of its sum. */
    method FrameLeft(tnode: Tnode, parent: Tnode?, key: Employee, grade: int, ghost t: Shape)
      requires t.Bin? && t.node == tnode && Distinct(t) && Avl(t)
      requires Linked(t, parent) && Hangs(t, parent) && Placed(t, parent) && tnode.sumGrades == Sum(t) - grade
      requires Ready(t.left, key, grade)
      requires Less(key, t.entry.key)
      modifies this`root, Nodes(t), Only(parent)
      ensures Gone(t, parent, key, grade)
      decreases Size(t), 1
    {
      hide Delete, Balance, Rep, Linked, Leveled, Short, Avl, Distinct, Removable, Finds, Found, Factor, Height, Size, Sum;
      ghost var v := t.(left := Delete(t.left, key));
      NodesAllocated(t);
      DeleteSonLeft(t, v, key);
      ghost var other := Sibling(parent, tnode);
      assert other !in Nodes(t);
      DescendLeft(tnode, parent, key, grade, t);
      label Down:
      if WayOf(t.left, key).MISSED? {
        ShortAbove(t, parent, key, grade);
      }
      Resettle(tnode, WayOf(t.left, key), v, parent);
      if WayOf(t.left, key).DIRECT? {
        StaysLinked@Down(parent, other, Balance(v));
      }
    }

    /** A frame of the descent to the left: the sum goes down on the way in, the rest is settled on the way out. */
    method DeleteLeft(tnode: Tnode, parent: Tnode?, key: Employee, grade: int, ghost t: Shape)
      requires t.Bin? && t.node == tnode && Distinct(t) && Avl(t)
      requires Rep(t, parent) && Hangs(t, parent) && Ready(t.left, key, grade)
      requires Less(key, t.entry.key)
      modifies this`root, Nodes(t), Only(parent)
      ensures Gone(t, parent, key, grade)
      decreases Size(t), 2
    {
      assert Rep(t.left, tnode) && Rep(t.right, tnode);
      tnode.sumGrades := tnode.sumGrades - grade;
      FrameLeft(tnode, parent, key, grade, t);
    }

    method DeleteN(tnode: Tnode?, parent: Tnode?, key: Employee, father: Side, grade: int, ghost t: Shape, ghost q: Shape)
      requires tnode == Root(t) && Distinct(t) && Avl(t) && Rep(t, parent) && Ready(t, key, grade)
      requires t.Bin? ==> Hangs(t, parent) && OnSide(parent, father, t.node)
      requires parent != null ==>
                 && q.Bin? && q.node == parent && Distinct(q) && father != ROOT && Son(q, father) == t
                 && Linked(q, parent.parent) && Hangs(q, parent.parent)
      modifies this`root, Nodes(t), Only(parent)
      modifies if Direct(t, key) && parent != null then Nodes(q) + Only(parent.parent) else {}
      ensures t.Bin? && !Direct(t, key) ==> Gone(t, parent, key, grade)
      ensures t.Nil? ==> Untouched(parent, {})
      ensures Direct(t, key) && parent == null ==> Rep(Delete(t, key), null) && root == Root(Delete(t, key))
      ensures Direct(t, key) && parent != null ==>
                var v := Balance(WithSon(q, father, Delete(t, key)));
                Rep(v, old(parent.parent)) && Relinked(old(parent.parent), parent, Root(v))
      decreases Size(t), 4
    {
      if tnode == null {
        return;
      }
      assert Linked(t, parent);
      if parent != null && Direct(t, key) {
        assert Delete(t, key) == OnlySon(t);
      }
      if Less(tnode.key, key) {
        DeleteRight(tnode, parent, key, grade, t);
      } else if Less(key, tnode.key) {
        DeleteLeft(tnode, parent, key, grade, t);
      } else if tnode.left == null || tnode.right == null {
        Unlink(tnode, parent, father, t, q);
      } else {
        DeleteTwoSons(tnode, parent, key, father, grade, t);
      }
    }

    /** Removal of the exchanged node from the right subtree, and the frame's tail, which here sets the sum too. */
    method DeleteAfterSwap(tmp: Tnode, parent: Tnode?, key: Employee, grade: int, ghost w: Shape)
      requires w.Bin? && w.node == tmp && Distinct(w) && Avl(w) && Rep(w, parent) && Hangs(w, parent)
      requires Removable(w.right, key) && Finds(w.right, key) && grade == Found(w.right, key).1.grade
      modifies this`root, Nodes(w), Only(parent)
      ensures var v := Balance(w.(right := Delete(w.right, key))); Rep(v, parent) && Relinked(parent, tmp, Root(v))
      decreases Size(w), 1
    {
      ghost var v := w.(right := Delete(w.right, key));
      NodesAllocated(w);
      DeleteSonRight(w, v, key);
      DescendRight(tmp, parent, key, grade, w);
      ResettleSum(tmp, Direct(w.right, key), v, parent);
    }

    /** The tail of a frame that also sets the sum of its node. */
    method ResettleSum(tmp: Tnode, ghost direct: bool, ghost v: Shape, ghost p: Tnode?)
      requires v.Bin? && v.node == tmp && Distinct(v) && Avl(v.left) && Avl(v.right) && -2 <= Factor(v) <= 2
      requires direct ==> Rep(Balance(v), p)
      requires !direct ==> Linked(v, p) && tmp.parent == p && Hangs(v, p)
      modifies this`root, Nodes(v), Only(p)
      ensures Rep(Balance(v), p)
      ensures direct ==> Untouched(p, {})
      ensures !direct ==> Relinked(p, tmp, Root(Balance(v)))
    {
      NodesAllocated(v);
      BalanceKeeps(v);
      ResetSum(tmp, direct, v, p);
      Resettle(tmp, if direct then DIRECT else BELOW, v, p);
    }

    /** Recomputes the grade sum of `tmp` from its sons. */
    method ResetSum(tmp: Tnode, ghost direct: bool, ghost v: Shape, ghost p: Tnode?)
      requires v.Bin? && v.node == tmp && Distinct(v) && Avl(v.left) && Avl(v.right) && -2 <= Factor(v) <= 2
      requires direct ==> Rep(Balance(v), p)
      requires !direct ==> Linked(v, p)
      modifies tmp`sumGrades
      ensures direct ==> unchanged(tmp)
      ensures !direct ==> Linked(v, p) && tmp.sumGrades == Sum(v)
    {
      if direct {
        BalanceKeeps(v);
        BalanceAvl(v);
        ghost var u := Locate(Balance(v), p, tmp);
        CachesExact(u, tmp.parent);
      } else {
        assert Rep(v.left, tmp) && Rep(v.right, tmp);
      }
      tmp.sumGrades := tmp.tGrade + SumOf(tmp.left) + SumOf(tmp.right);
      if !direct {
        assert Rep(v.left, tmp) && Rep(v.right, tmp);
      }
    }

    /** Two sons: the node changes places with its successor and is then removed from the right subtree. */
    method DeleteTwoSons(tnode: Tnode, parent: Tnode?, key: Employee, father: Side, grade: int, ghost t: Shape)
      requires t.Bin? && t.node == tnode && Distinct(t) && Avl(t) && t.left.Bin? && t.right.Bin?
      requires Rep(t, parent) && Hangs(t, parent) && OnSide(parent, father, tnode)
      requires Removable(t, key) && SamePlace(t.entry.key, key) && grade == t.entry.grade
      modifies this`root, Nodes(t), Only(parent)
      ensures Rep(Delete(t, key), parent) && Relinked(parent, tnode, Root(Delete(t, key)))
      decreases Size(t), 3
    {
      ghost var w := Swapped(t);
      NodesAllocated(t);
      SwappedFacts(t, key);
      var tmp := SwapWithSuccessor(tnode, parent, father, t);
      DeleteAfterSwap(tmp, parent, key, grade, w);
    }

    function Search(tnode: Tnode?, key: Employee, ghost t: Shape, ghost p: Tnode?): (r: Tnode?)
      requires tnode == Root(t) && Rep(t, p)
      reads Nodes(t)
      ensures r == Root(Lookup(t, key))
      decreases t
    {
      if tnode == null then null
      else
        assert Linked(t, p) && Rep(t.left, tnode) && Rep(t.right, tnode);
        if SameId(tnode.key, key) then tnode
        else if Less(tnode.key, key) then Search(tnode.right, key, t.right, tnode)
        else Search(tnode.left, key, t.left, tnode)
    }

    function SearchAssist(key: Employee): (r: Tnode?)
      requires Valid()
      reads this, Nodes(shape)
      ensures r == Root(Lookup(shape, key))
    {
      Search(root, key, shape, null)
    }

    /** Links a new leaf into the tree. */
    method AddNode(newNode: Tnode, ghost e: Entry)
      requires Valid() && newNode !in Nodes(shape) && Rep(Leaf(newNode, e), null) && newNode.parent == null
      requires Lookup(shape, e.key).Nil?
      modifies this, Nodes(shape), newNode
      ensures Valid() && Nodes(shape) == old(Nodes(shape)) + {newNode}
      ensures Contents() == InsertEntry(old(Contents()), e)
    {
      NodesAllocated(shape);
      InsertValid(shape, newNode, e);
      assert shape.Bin? ==> Linked(shape, null);
      counter := counter + 1;
      if root == null {
        root := newNode;
      } else {
        InsertN(root, newNode, shape, e);
      }
      shape := Insert(shape, newNode, e);
    }

    /** Refuses a key whose id the search meets; otherwise adds the entry at its sorted place. */
    method InsertKey(key: Employee, data: Employee, grade: int) returns (res: Status)
      requires Valid()
      modifies this, Nodes(shape)
      ensures Valid() && fresh(Nodes(shape) - old(Nodes(shape)))
      ensures res == if Lookup(old(shape), key).Bin? then FAILURE else SUCCESS
      ensures res == SUCCESS ==> Contents() == InsertEntry(old(Contents()), Entry(key, data, grade))
      ensures res == FAILURE ==> shape == old(shape)
    {
      if root != null {
        if Search(root, key, shape, null) != null {
          return FAILURE;
        }
      }
      NodesAllocated(shape);
      var newNode := new Tnode(key, data, grade);
      LeafRep(newNode, Entry(key, data, grade));
      AddNode(newNode, Entry(key, data, grade));
      return SUCCESS;
    }

    /**
     * Refuses an id the search does not meet; otherwise takes out the key, wherever it is stored at its salary, and
     * counts down in any case. The tree stays valid exactly when there was something to take out or nothing to count.
     */
    method Remove(key: Employee, grade: int) returns (res: Status)
      requires Valid()
      requires forall e :: e in Contents() && SamePlace(e.key, key) ==> grade == e.grade
      modifies this, Nodes(shape)
      ensures res == if Lookup(old(shape), key).Bin? then SUCCESS else FAILURE
      ensures Contents() == if res == SUCCESS then RemoveKey(old(Contents()), key) else old(Contents())
      ensures counter == old(counter) - if res == SUCCESS then 1 else 0
      ensures Nodes(shape) <= old(Nodes(shape))
      ensures Valid() <==> res == FAILURE || Stores(old(Contents()), key)
      ensures !Valid() ==> shape == old(shape) && root == old(root) && Short(shape, null, key, grade)
      ensures res == FAILURE ==> shape == old(shape)
    {
      hide Delete, Removable, Found, InOrder, Height, Sum, Linked;
      var hit := Search(root, key, shape, null);
      if hit == null {
        return FAILURE;
      }
      NodesAllocated(shape);
      DeleteValid(shape, key);
      FindsStored(shape, key);
      assert Rep(shape, null);
      DeleteN(root, null, key, ROOT, grade, shape, Nil);
      shape := Delete(shape, key);
      counter := counter - 1;
      return SUCCESS;
    }

    /** The grade sum of the `len` largest keys, or of all keys if there are fewer. */
    method SpecialInOrderAssist(len: int) returns (sum: int)
      requires Valid() && 0 <= len
      ensures sum == GradeSum(Last(Contents(), Min(len, |Contents()|)))
    {
      SumIsGradeSum(shape);
      var num;
      num, sum := SpecialInOrder(root, 0, 0, len, shape, null);
    }

    /** Puts two rebuilt halves below their middle node and recomputes its caches. */
    method JoinHalves(node: Tnode, l: Tnode?, r: Tnode?, ghost e: Entry, ghost ul: Shape, ghost ur: Shape)
      requires node.key == e.key && node.data == e.data && node.tGrade == e.grade && node.parent == null
      requires l == Root(ul) && Rep(ul, null) && r == Root(ur) && Rep(ur, null)
      requires Distinct(Bin(ul, node, e, ur))
      modifies node, Only(l), Only(r)
      ensures Rep(Bin(ul, node, e, ur), null)
    {
      NodesAllocated(ul);
      NodesAllocated(ur);
      assert Only(l) <= Nodes(ul) && Only(r) <= Nodes(ur);
      node.left := l;
      SetParent(l, node, ul, null);
      node.right := r;
      SetParent(r, node, ur, null);
      Refresh(node, Bin(ul, node, e, ur));
    }

    /** Rebuilds `nodes[start..end]` as copies, splitting in the middle. The result is balanced as built. */
    method ArrayToTree(nodes: array<Tnode?>, start: int, end: int,
                       ghost items: seq<Item>, ghost copies: seq<Entry>)
      returns (node: Tnode?, ghost u: Shape, ghost born: set<Tnode>)
      requires Holds(nodes, items) && Carried(items) && copies == Copies(Entries(items)) && |copies| == |items|
      requires 0 <= start <= end + 1 <= |items|
      modifies this`root
      ensures root == old(root)
      ensures node == Root(u) && Rep(u, null) && Distinct(u) && Nodes(u) <= born && fresh(born)
      ensures Even(u) && Size(u) == end - start + 1
      ensures InOrder(u) == copies[start..end + 1]
      decreases end - start + 1, 1
    {
      if start > end {
        return null, Nil, {};
      }
      var mid := (start + end) / 2;
      MiddleIs(nodes, mid, items, copies);
      var key, data := nodes[mid].key, nodes[mid].data;
      hide Rep, Linked, Copies, Entries, Holds, Carried, Copy, Avl, Height, Sum;
      var l, r;
      ghost var ul, ur;
      l, r, ul, ur, born := BuildHalves(nodes, start, mid, end, items, copies);
      node, u := FinishHalves(key, data, l, r, ul, ur);
      Rejoin(copies, start, mid, end);
      born := born + {node as Tnode};
    }

    lemma MiddleIs(nodes: array<Tnode?>, mid: int, items: seq<Item>, copies: seq<Entry>)
      requires Holds(nodes, items) && Carried(items) && copies == Copies(Entries(items)) && |copies| == |items|
      requires 0 <= mid < |items|
      ensures nodes[mid] != null && copies[mid] == Entry(nodes[mid].key, nodes[mid].data, nodes[mid].data.grade)
    {
      CopiesAt(Entries(items));
    }

    method BuildHalves(nodes: array<Tnode?>, start: int, mid: int, end: int,
                       ghost items: seq<Item>, ghost copies: seq<Entry>)
      returns (l: Tnode?, r: Tnode?, ghost ul: Shape, ghost ur: Shape, ghost born: set<Tnode>)
      requires Holds(nodes, items) && Carried(items) && copies == Copies(Entries(items)) && |copies| == |items|
      requires 0 <= start <= mid <= end < |items|
      modifies this`root
      ensures root == old(root)
      ensures l == Root(ul) && Rep(ul, null) && Distinct(ul) && r == Root(ur) && Rep(ur, null) && Distinct(ur)
      ensures Nodes(ul) <= born && Nodes(ur) <= born && fresh(born) && Nodes(ul) !! Nodes(ur)
      ensures Even(ul) && Size(ul) == mid - start && Even(ur) && Size(ur) == end - mid
      ensures InOrder(ul) == copies[start..mid] && InOrder(ur) == copies[mid + 1..end + 1]
      decreases end - start + 1, 0
    {
      l, ul, born := ArrayToTree(nodes, start, mid - 1, items, copies);
      NodesAllocated(ul);
      assert Carried(items);
      ghost var more;
      r, ur, more := ArrayToTree(nodes, mid + 1, end, items, copies);
      born := born + more;
      assert Rep(ul, null);
    }

    lemma Rejoin(s: seq<Entry>, start: int, mid: int, end: int)
      requires 0 <= start <= mid <= end < |s|
      ensures s[start..mid] + [s[mid]] + s[mid + 1..end + 1] == s[start..end + 1]
    {
    }

    /** The end of a rebuild step; the call of `BalanceNode` finds nothing to rotate. */
    method FinishHalves(key: Employee, data: Employee, l: Tnode?, r: Tnode?, ghost ul: Shape, ghost ur: Shape)
      returns (node: Tnode, ghost u: Shape)
      requires l == Root(ul) && Rep(ul, null) && Distinct(ul) && r == Root(ur) && Rep(ur, null) && Distinct(ur)
      requires Nodes(ul) !! Nodes(ur) && Even(ul) && Even(ur) && Size(ul) <= Size(ur) <= Size(ul) + 1
      modifies this`root, Nodes(ul), Nodes(ur)
      ensures fresh(node) && u == Bin(ul, node, Entry(key, data, data.grade), ur)
      ensures Distinct(u) && Even(u) && Rep(u, null) && root == old(root)
    {
      NodesAllocated(ul);
      NodesAllocated(ur);
      node := new Tnode(key, data, data.grade);
      u := Bin(ul, node, Entry(key, data, data.grade), ur);
      EvenAvl(u);
      JoinHalves(node, l, r, u.entry, ul, ur);
      BalanceNode(node, u);
    }

    /** Recomputes every height from scratch. On an exact tree it changes nothing. */
    method TreeHeight(node: Tnode?, ghost t: Shape, ghost p: Tnode?) returns (h: int)
      requires node == Root(t) && Rep(t, p) && Distinct(t)
      modifies Nodes(t)
      ensures Rep(t, p) && h == Max(Height(t), 0)
      decreases t
    {
      if node == null {
        return 0;
      }
      NodesAllocated(t);
      assert Rep(t.left, node) && Rep(t.right, node);
      var left := TreeHeight(node.left, t.left, node);
      assert Rep(t.right, node);
      var right := TreeHeight(node.right, t.right, node);
      assert Rep(t.left, node);
      if node.left != null {
        left := left + 1;
      }
      if node.right != null {
        right := right + 1;
      }
      h := Max(left, right);
      node.height := h;
    }

    /** Flattens the tree into an array of its nodes in order. */
    method InOrderAssist() returns (nodes: array<Tnode?>)
      requires Valid()
      ensures fresh(nodes) && nodes.Length == |Items(shape)| && Holds(nodes, Items(shape))
    {
      ItemsInOrder(shape);
      NodesAllocated(shape);
      nodes := new Tnode?[counter](_ => null);
      assert Rep(shape, null);
      var i := InOrderFill(root, nodes, 0, counter, shape, null);
    }

    /** A new tree with copies of the employees of both; the old trees keep their nodes. */
    method MergeTree(t: Tree) returns (newT: Tree)
      requires Valid() && t.Valid()
      modifies this`root, this`counter
      ensures fresh(newT) && newT.Exact() && fresh(Nodes(newT.shape))
      ensures newT.Valid() <==> Apart(old(Contents()), old(t.Contents()))
      ensures newT.Contents() == Copies(MergeEntries(old(Contents()), old(t.Contents())))
      ensures root == old(root) && shape == old(shape)
    {
      hide Rep, Linked, Avl, Distinct, Sorted, Apart, InOrder, Items, MergeItems, MergeEntries, Copies, Size;
      ghost var a, b := Items(shape), Items(t.shape);
      NodesAllocated(shape);
      NodesAllocated(t.shape);
      ItemsInOrder(shape);
      ItemsInOrder(t.shape);
      MergeItemsEntries(a, b);
      MergeSorted(Contents(), t.Contents());
      var tree1 := InOrderAssist();
      var tree2 := t.InOrderAssist();
      ItemsCarried(shape, null);
      ItemsCarried(t.shape, null);
      var mergedTree := MergeArrays(tree1, tree2, a, b);
      ItemsCarried(shape, null);
      ItemsCarried(t.shape, null);
      MergeItemsCarried(a, b);
      newT := BuildFrom(mergedTree, counter + t.counter, MergeItems(a, b));
      counter := counter + t.counter;
    }

    /** The rebuilt array as a tree object of its own. */
    method BuildFrom(nodes: array<Tnode?>, len: int, ghost items: seq<Item>) returns (newT: Tree)
      requires Holds(nodes, items) && Carried(items) && len == |items|
      modifies this`root
      ensures root == old(root)
      ensures fresh(newT) && newT.Exact() && fresh(Nodes(newT.shape))
      ensures newT.Valid() <==> Sorted(Entries(items))
      ensures newT.Contents() == Copies(Entries(items))
    {
      hide Rep, Linked, Avl, Distinct, Sorted, InOrder, Copies, Even;
      var newRoot;
      ghost var u, born;
      CopiesSorted(Entries(items));
      CopiesAt(Entries(items));
      newRoot, u, born := ArrayToTree(nodes, 0, len - 1, items, Copies(Entries(items)));
      assert Copies(Entries(items))[0..len] == Copies(Entries(items));
      NodesAllocated(u);
      EvenAvl(u);
      newT := new Tree();
      newT.root := newRoot;
      newT.counter := len;
      newT.shape := u;
      var h := newT.TreeHeight(newT.root, u, null);
    }

    /** A promotion: the node's three copies of the grade are set, then every sum up to the root follows. */
    method BumpNode(enode: Tnode, newGrade: int, bumpGrade: int)
      requires Valid() && enode in Nodes(shape) && newGrade == enode.tGrade + bumpGrade
      modifies this`shape, Nodes(shape)
      ensures Valid() && Nodes(shape) == old(Nodes(shape))
      ensures Contents() == BumpKey(old(Contents()), old(enode.key), newGrade)
    {
      NodesAllocated(shape);
      EntryOfRep(shape, null, enode);
      BumpedValid(shape, enode, newGrade);
      Promote(enode, newGrade, bumpGrade, shape);
      shape := Bumped(shape, enode, newGrade);
    }
  }
}
