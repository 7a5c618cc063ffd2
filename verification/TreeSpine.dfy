/** The left spine of a subtree, along which a deletion with two sons finds and swaps the successor. */
module TreeSpine {
  import opened Staff
  import opened TreeShape
  import opened TreeLaws
  import opened TreeLinks

  ghost function Spine(t: Shape): set<Tnode> {
    if t.Nil? then {} else {t.node} + Spine(t.left)
  }

  /** The right subtree of the leftmost node. */
  ghost function SpineTail(t: Shape): Shape {
    if t.Nil? then Nil else if t.left.Nil? then t.right else SpineTail(t.left)
  }

  /** The parent of the leftmost node, if the spine has one. */
  ghost function SpineEnd(t: Shape): Tnode? {
    if t.Nil? || t.left.Nil? then null
    else if t.left.left.Nil? then t.node
    else SpineEnd(t.left)
  }

  lemma {:induction false} SpineInside(t: Shape)
    ensures Spine(t) <= Nodes(t)
    ensures t.Bin? && t.left.Bin? ==> SpineEnd(t) in Nodes(t)
    ensures t.Bin? ==> Leftmost(t).0 in Nodes(t) && Nodes(SpineTail(t)) <= Nodes(t)
    ensures t.Bin? && Distinct(t) ==> Leftmost(t).0 !in Nodes(SpineTail(t)) && Leftmost(t).0 != SpineEnd(t)
    ensures t.Bin? && Distinct(t) && t.left.Bin? ==>
              Leftmost(t).0 != t.node && Nodes(SpineTail(t)) <= Nodes(t.left) && SpineEnd(t) !in Nodes(SpineTail(t))
  {
    if t.Bin? { SpineInside(t.left); }
  }

  /** Like `Rep`, except that every grade sum on the left spine is off by `d`. */
  ghost predicate SpineRep(t: Shape, p: Tnode?, d: int)
    reads Nodes(t)
  {
    t.Bin? ==>
      && t.node.key == t.entry.key && t.node.data == t.entry.data && t.node.tGrade == t.entry.grade
      && t.node.parent == p && t.node.left == Root(t.left) && t.node.right == Root(t.right)
      && t.node.height == Height(t) && t.node.treeNodes == Size(t) && t.node.sumGrades == Sum(t) + d
      && SpineRep(t.left, t.node, d) && Rep(t.right, t.node)
  }

  /** `x` kept everything except its links. */
  twostate predicate SameNode(x: Tnode)
    reads x
  {
    x.key == old(x.key) && x.data == old(x.data) && x.tGrade == old(x.tGrade)
    && x.height == old(x.height) && x.treeNodes == old(x.treeNodes) && x.sumGrades == old(x.sumGrades)
  }

  /** Only the parent of `x` is new. */
  twostate predicate Adopted(x: Tnode, new n: Tnode)
    reads x
  {
    SameNode(x) && x.left == old(x.left) && x.right == old(x.right) && x.parent == n
  }

  twostate lemma {:induction false} AdoptedRep(t: Shape, new p: Tnode?, new n: Tnode)
    requires old(allocated(p))
    requires Distinct(t) && old(Rep(t, p))
    requires forall x :: x in Nodes(t) ==> old(allocated(x))
    requires forall x :: x in Nodes(t) && x != Root(t) ==> unchanged(x)
    requires t.Bin? ==> Adopted(t.node, n)
    ensures Rep(t, n)
  {
    if t.Bin? {
      assert Nodes(t.left) <= Nodes(t) - {t.node} && Nodes(t.right) <= Nodes(t) - {t.node};
      assert old(Rep(t.left, t.node)) && old(Rep(t.right, t.node));
      assert Rep(t.left, t.node) && Rep(t.right, t.node);
    }
  }

  /** What the swap does to the nodes of the right subtree `r`, which `n` enters and now hangs from `q`. */
  twostate predicate SwappedIn(r: Shape, n: Tnode, e: Entry, q: Tnode)
    requires r.Bin?
    requires forall x :: x in Nodes(r) ==> old(allocated(x))
    reads Nodes(r), n, Only(Root(SpineTail(r)))
  {
    && n.key == e.key && n.data == e.data && n.tGrade == e.grade
    && n.left == null && n.right == Root(SpineTail(r))
    && n.height == Height(SpineTail(r)) + 1 && n.treeNodes == Size(SpineTail(r)) + 1
    && n.sumGrades == Sum(SpineTail(r)) + e.grade
    && n.parent == (if r.left.Nil? then q else SpineEnd(r))
    && (r.left.Bin? ==>
          SameNode(r.node) && r.node.right == old(r.node.right) && r.node.parent == q
          && r.node.left == if r.left.left.Nil? then n else old(r.node.left))
    && (forall x :: x in Nodes(r) && x == SpineEnd(r) && x != r.node ==>
          SameNode(x) && x.right == old(x.right) && x.parent == old(x.parent) && x.left == n)
    && (forall x :: x in Nodes(r) && x !in {r.node, Leftmost(r).0} && x != SpineEnd(r) && x != Root(SpineTail(r)) ==>
          unchanged(x))
    && (SpineTail(r).Bin? ==> Adopted(SpineTail(r).node, n))
  }

  /** One level of the swap: what it says about the top node and what is left for the left subtree. */
  twostate lemma {:induction false} SwappedTop(r: Shape, new p: Tnode, new n: Tnode, new e: Entry, new q: Tnode, new d: int)
    requires old(allocated(p)) && old(allocated(n)) && old(allocated(e)) && old(allocated(q))
    requires r.Bin? && r.left.Bin? && Distinct(r) && old(SpineRep(r, p, d)) && n !in Nodes(r)
    requires forall x :: x in Nodes(r) ==> old(allocated(x))
    requires SwappedIn(r, n, e, q)
    ensures SwappedIn(r.left, n, e, r.node)
    ensures r.node.left == Root(WithLeftmost(r.left, n, e))
    ensures Rep(r.right, r.node)
  {
    var x := r.node;
    assert old(SpineRep(r.left, x, d)) && old(Rep(r.right, x));
    SpineInside(r);
    SpineInside(r.left);
    assert Nodes(r.right) <= Nodes(r) - {x} - Nodes(r.left);
    assert SpineEnd(r) == if r.left.left.Nil? then x else SpineEnd(r.left);
    assert SpineTail(r) == SpineTail(r.left) && Leftmost(r) == Leftmost(r.left);
    assert old(r.left.node.parent) == x;
    if r.left.left.Bin? {
      SpineInside(r.left.left);
      assert r.left.left.left.Bin? ==> SpineEnd(r.left) in Nodes(r.left.left);
    }
  }

  /** After the swap the right subtree is represented again, exactly, with `n` in the leftmost place. */
  twostate lemma {:induction false} SwappedRep(r: Shape, new p: Tnode, new n: Tnode, new e: Entry, new q: Tnode)
    requires old(allocated(p)) && old(allocated(n)) && old(allocated(e)) && old(allocated(q))
    requires r.Bin? && Distinct(r) && n !in Nodes(r)
    requires old(SpineRep(r, p, e.grade - Leftmost(r).1.grade))
    requires forall x :: x in Nodes(r) ==> old(allocated(x))
    requires SwappedIn(r, n, e, q)
    ensures Rep(WithLeftmost(r, n, e), q)
    decreases r
  {
    if r.left.Nil? {
      assert old(Rep(r.right, r.node));
      assert Nodes(r.right) <= Nodes(r) - {r.node};
      AdoptedRep(r.right, r.node, n);
    } else {
      var d := e.grade - Leftmost(r).1.grade;
      assert old(SpineRep(r.left, r.node, d));
      SwappedTop(r, p, n, e, q, d);
      SwappedRep(r.left, r.node, n, e, r.node);
      WithLeftmostKeeps(r, n, e);
    }
  }

  /** The leftmost node and its surroundings, read off a representation with shifted sums. */
  lemma {:induction false} LeftmostRep(r: Shape, p: Tnode?, d: int)
    requires r.Bin? && SpineRep(r, p, d)
    ensures var (s, e) := Leftmost(r);
            && s.key == e.key && s.data == e.data && s.tGrade == e.grade && s.left == null
            && s.right == Root(SpineTail(r)) && Rep(SpineTail(r), s)
            && s.height == Height(SpineTail(r)) + 1 && s.treeNodes == Size(SpineTail(r)) + 1
    ensures r.left.Bin? ==> SpineEnd(r) != null && SpineEnd(r).left == Leftmost(r).0
  {
    if r.left.Bin? {
      assert SpineRep(r.left, r.node, d);
      LeftmostRep(r.left, r.node, d);
    }
  }

  lemma {:induction false} LeftmostGrade(r: Shape, p: Tnode?)
    requires r.Bin? && Rep(r, p)
    ensures Leftmost(r).0.tGrade == Leftmost(r).1.grade
  {
    if r.left.Bin? {
      assert Rep(r.left, r.node);
      LeftmostGrade(r.left, r.node);
    }
  }

  /** In an AVL tree the leftmost node has at most a leaf to its right. */
  lemma {:induction false} SpineTailLeaf(r: Shape)
    requires r.Bin? && Avl(r)
    ensures var u := SpineTail(r);
            u.Bin? ==> u.left.Nil? && u.right.Nil? && Size(u) == 1 && Height(u) == 0 && Sum(u) == u.entry.grade
  {
    if r.left.Bin? {
      SpineTailLeaf(r.left);
    } else if r.right.Bin? {
      assert Height(r.right) <= 0;
      assert Height(r.right.left) == -1 && Height(r.right.right) == -1;
    }
  }

  twostate predicate SameEntry(x: Tnode)
    reads x
  {
    x.key == old(x.key) && x.data == old(x.data) && x.tGrade == old(x.tGrade)
  }

  /**
   * The nodes that the surgery writes: `tnode` and its successor `tmp`, the successor's old parent and
   * right son, and the two sons `l`, `rr` of `tnode`.
   */
  twostate predicate Exchanged(tnode: Tnode, tmp: Tnode, tmpParent: Tnode, l: Tnode, rr: Tnode, tail: Tnode?)
    reads tnode, tmp, tmpParent, l, rr, Only(tail)
  {
    && SameEntry(tnode) && SameEntry(tmp)
    && tnode.left == null && tnode.right == tail && tnode.height == old(tmp.height)
    && tnode.treeNodes == 1 + (if tail == null then 0 else 1)
    && tnode.sumGrades == tnode.tGrade + (if tail == null then 0 else tail.tGrade)
    && tnode.parent == (if tmpParent == tnode then tmp else tmpParent)
    && tmp.left == l && tmp.right == (if tmpParent == tnode then tnode else rr)
    && tmp.height == old(tnode.height) && tmp.treeNodes == old(tnode.treeNodes)
    && tmp.sumGrades == tmp.tGrade + (if tmpParent == tnode then tnode.sumGrades else rr.sumGrades) + l.sumGrades
    && Adopted(l, tmp) && (tail != null ==> Adopted(tail, tnode))
    && (tmpParent != tnode ==>
          SameNode(rr) && rr.right == old(rr.right) && rr.parent == tmp
          && rr.left == (if rr == tmpParent then tnode else old(rr.left)))
    && (tmpParent != tnode && tmpParent != rr ==>
          SameNode(tmpParent) && tmpParent.right == old(tmpParent.right)
          && tmpParent.parent == old(tmpParent.parent) && tmpParent.left == tnode)
  }

  /** The surgery is a swap of the leftmost place of the right subtree `r`, when that place is its top. */
  twostate lemma {:induction false} ExchangedTop(r: Shape, new tnode: Tnode, new e: Entry, new tmpParent: Tnode, new l: Tnode)
    requires old(allocated(tnode)) && old(allocated(e)) && old(allocated(tmpParent)) && old(allocated(l))
    requires r.Bin? && Distinct(r) && Avl(r) && tnode !in Nodes(r) && l !in Nodes(r)
    requires forall x :: x in Nodes(r) ==> old(allocated(x))
    requires old(SpineRep(r, tnode, e.grade - Leftmost(r).1.grade))
    requires old(tnode.key == e.key && tnode.data == e.data && tnode.tGrade == e.grade)
    requires Exchanged(tnode, Leftmost(r).0, tmpParent, l, r.node, Root(SpineTail(r)))
    requires forall x :: x in Nodes(r) && x !in {Leftmost(r).0, r.node} && x != tmpParent && x != Root(SpineTail(r)) ==>
               unchanged(x)
    requires r.left.Nil? && tmpParent == tnode
    ensures SwappedIn(r, tnode, e, Leftmost(r).0)
  {
    SpineInside(r);
    SpineTailLeaf(r);
    OldLeftmost(r, tnode, e.grade - Leftmost(r).1.grade);
  }

  /** The surgery is a swap of the leftmost place of the right subtree `r`, when that place is deeper. */
  twostate lemma {:induction false} ExchangedDeep(r: Shape, new tnode: Tnode, new e: Entry, new tmpParent: Tnode, new l: Tnode)
    requires old(allocated(tnode)) && old(allocated(e)) && old(allocated(tmpParent)) && old(allocated(l))
    requires r.Bin? && Distinct(r) && Avl(r) && tnode !in Nodes(r) && l !in Nodes(r)
    requires forall x :: x in Nodes(r) ==> old(allocated(x))
    requires old(SpineRep(r, tnode, e.grade - Leftmost(r).1.grade))
    requires old(tnode.key == e.key && tnode.data == e.data && tnode.tGrade == e.grade)
    requires Exchanged(tnode, Leftmost(r).0, tmpParent, l, r.node, Root(SpineTail(r)))
    requires forall x :: x in Nodes(r) && x !in {Leftmost(r).0, r.node} && x != tmpParent && x != Root(SpineTail(r)) ==>
               unchanged(x)
    requires r.left.Bin? && tmpParent == SpineEnd(r)
    ensures SwappedIn(r, tnode, e, Leftmost(r).0)
  {
    SpineInside(r);
    SpineInside(r.left);
    SpineTailLeaf(r);
    OldLeftmost(r, tnode, e.grade - Leftmost(r).1.grade);
  }

  twostate lemma {:induction false} OldLeftmost(r: Shape, new p: Tnode?, new d: int)
    requires old(allocated(p))
    requires r.Bin? && old(SpineRep(r, p, d)) && old(allocated(Leftmost(r).0))
    ensures var (s, e) := Leftmost(r);
            && old(s.key == e.key && s.data == e.data && s.tGrade == e.grade)
            && old(s.height) == Height(SpineTail(r)) + 1 && old(Rep(SpineTail(r), s))
  {
    if r.left.Bin? {
      assert old(SpineRep(r.left, r.node, d));
      OldLeftmost(r.left, r.node, d);
    }
  }

  /** What the surgery needs to know about its nodes: which of them can coincide. */
  lemma {:induction false} ExchangeApart(t: Shape, parent: Tnode?, tmpParent: Tnode)
    requires t.Bin? && t.left.Bin? && t.right.Bin? && Distinct(t) && parent !in Nodes(t)
    requires SpineRep(t.right, t.node, t.entry.grade - Leftmost(t.right).1.grade)
    requires tmpParent == if t.right.left.Nil? then t.node else SpineEnd(t.right)
    ensures var tmp, l, rr, tail := Leftmost(t.right).0, t.left.node, t.right.node, Root(SpineTail(t.right));
            && tmp.left == null && tmp.right == tail && tmp != t.node && tmpParent != tmp
            && (if tmpParent == t.node then rr == tmp else tmpParent.left == tmp && rr != tmp)
            && l !in {t.node, tmp, tmpParent, rr} && rr != t.node
            && tail !in {t.node, tmp, tmpParent, l, rr}
            && parent !in {t.node, tmp, tmpParent, l, rr} && (parent == null || parent != tail)
            && tmp in Nodes(t) && tmpParent in Nodes(t) && rr in Nodes(t) && l in Nodes(t)
            && (tail != null ==> tail in Nodes(t))
  {
    var r, u, tmp := t.right, SpineTail(t.right), Leftmost(t.right).0;
    SpineInside(r);
    SpineInside(r.left);
    LeftmostRep(r, t.node, t.entry.grade - Leftmost(r).1.grade);
    assert tmp in Nodes(r) && r.node in Nodes(r) && tmpParent in Nodes(r) + {t.node};
    assert t.left.node in Nodes(t.left) && t.left.node !in Nodes(r) && t.node !in Nodes(r);
    if u.Bin? {
      assert u.node in Nodes(u) && u.node in Nodes(r);
      assert u.node !in {t.node, tmp, tmpParent, t.left.node, r.node};
    }
    assert Nodes(r) <= Nodes(t) && Nodes(t.left) <= Nodes(t);
  }

  /** Where the successor hangs before the surgery. */
  ghost function SuccessorParent(t: Shape): Tnode
    requires t.Bin? && t.right.Bin?
  {
    if t.right.left.Nil? then t.node else
    SpineEndInside(t.right); SpineEnd(t.right)
  }

  lemma {:induction false} SpineEndInside(r: Shape)
    requires r.Bin? && r.left.Bin?
    ensures SpineEnd(r) != null
  {
    SpineInside(r);
  }

  /** The surgery as a step on the representation of `t`, whose spine sums have been shifted. */
  twostate predicate Surgery(t: Shape)
    requires t.Bin? && t.left.Bin? && t.right.Bin?
    requires forall x :: x in Nodes(t) ==> old(allocated(x))
    reads *
  {
    var tmp, tail := Leftmost(t.right).0, Root(SpineTail(t.right));
    && Distinct(t) && Avl(t)
    && old(t.node.key == t.entry.key && t.node.data == t.entry.data && t.node.tGrade == t.entry.grade)
    && old(t.node.height == Height(t) && t.node.treeNodes == Size(t))
    && old(Rep(t.left, t.node)) && old(SpineRep(t.right, t.node, t.entry.grade - Leftmost(t.right).1.grade))
    && Exchanged(t.node, tmp, SuccessorParent(t), t.left.node, t.right.node, tail)
    && forall x :: x in Nodes(t) && x !in {t.node, tmp, SuccessorParent(t), t.left.node, t.right.node} && x != tail ==>
         unchanged(x)
  }

  twostate lemma {:induction false} SurgeryIn(t: Shape)
    requires t.Bin? && t.left.Bin? && t.right.Bin?
    requires forall x :: x in Nodes(t) ==> old(allocated(x))
    requires Surgery(t)
    ensures Leftmost(t.right).0 in Nodes(t)
    ensures SwappedIn(t.right, t.node, t.entry, Leftmost(t.right).0)
  {
    var r := t.right;
    SpineInside(r);
    assert Nodes(r) <= Nodes(t) && t.node !in Nodes(r) && t.left.node in Nodes(t.left) && t.left.node !in Nodes(r);
    if r.left.Nil? {
      ExchangedTop(r, t.node, t.entry, t.node, t.left.node);
    } else {
      ExchangedDeep(r, t.node, t.entry, SuccessorParent(t), t.left.node);
    }
  }

  twostate lemma {:induction false} SurgeryRight(t: Shape)
    requires t.Bin? && t.left.Bin? && t.right.Bin?
    requires forall x :: x in Nodes(t) ==> old(allocated(x))
    requires Surgery(t)
    ensures Rep(WithLeftmost(t.right, t.node, t.entry), Leftmost(t.right).0)
  {
    var r := t.right;
    SurgeryIn(t);
    hide SwappedIn, SpineRep, Exchanged, Rep, WithLeftmost;
    assert Nodes(r) <= Nodes(t) && t.node !in Nodes(r) && Distinct(r);
    SwappedRep(r, t.node, t.node, t.entry, Leftmost(r).0);
  }

  twostate lemma {:induction false} SurgeryLeft(t: Shape)
    requires t.Bin? && t.left.Bin? && t.right.Bin?
    requires forall x :: x in Nodes(t) ==> old(allocated(x))
    requires Surgery(t)
    ensures Rep(t.left, Leftmost(t.right).0)
  {
    SpineInside(t.right);
    assert Nodes(t.left) <= Nodes(t) - {t.node} - Nodes(t.right);
    assert Only(Root(SpineTail(t.right))) <= Nodes(SpineTail(t.right)) && {t.right.node} <= Nodes(t.right);
    AdoptedRep(t.left, t.node, Leftmost(t.right).0);
  }

  /** The surgery turns the representation of `t` into that of the swapped shape. */
  twostate lemma {:induction false} SurgeryDone(t: Shape)
    requires t.Bin? && t.left.Bin? && t.right.Bin?
    requires forall x :: x in Nodes(t) ==> old(allocated(x))
    requires Surgery(t)
    ensures Rep(Swapped(t), Leftmost(t.right).0.parent)
  {
    SpineInside(t.right);
    assert Nodes(t.right) <= Nodes(t);
    OldLeftmost(t.right, t.node, t.entry.grade - Leftmost(t.right).1.grade);
    SurgeryRight(t);
    SurgeryLeft(t);
    WithLeftmostKeeps(t.right, t.node, t.entry);
  }

  /** The shape after a node and its successor have exchanged places. */
  ghost function Swapped(t: Shape): Shape
    requires t.Bin? && t.right.Bin?
  {
    var (s, e) := Leftmost(t.right);
    Bin(t.left, s, e, WithLeftmost(t.right, t.node, t.entry))
  }

  /** The swapped shape is as good as the original, and the same key can be removed from its right subtree. */
  lemma {:induction false} SwappedFacts(t: Shape, key: Employee)
    requires t.Bin? && t.left.Bin? && t.right.Bin? && Distinct(t) && Avl(t)
    requires Removable(t, key) && SamePlace(t.entry.key, key)
    ensures var w := Swapped(t);
            && Distinct(w) && Avl(w) && Nodes(w) == Nodes(t)
            && Removable(w.right, key) && Finds(w.right, key) && Found(w.right, key) == (t.node, t.entry)
            && Delete(t, key) == Balance(w.(right := Delete(w.right, key)))
  {
    SpineInside(t.right);
    WithLeftmostKeeps(t.right, t.node, t.entry);
    DeleteSwapped(t.right, t.node, t.entry, key);
  }

  /** Walks down the left spine to the successor, remembering its parent. */
  method FindSuccessor(tnode: Tnode, ghost r: Shape) returns (tmp: Tnode, tmpParent: Tnode)
    requires r.Bin? && Rep(r, tnode) && tnode.right == r.node
    ensures tmp == Leftmost(r).0
    ensures tmpParent == if r.left.Nil? then tnode else SpineEnd(r)
  {
    tmpParent := tnode;
    tmp := tnode.right;
    ghost var u := r;
    while tmp.left != null
      invariant u.Bin? && tmp == u.node && Rep(u, tmpParent) && Leftmost(u) == Leftmost(r)
      invariant if u == r then tmpParent == tnode
                else r.left.Bin? && SpineEnd(r) == if u.left.Nil? then tmpParent else SpineEnd(u)
      decreases u
    {
      assert Rep(u.left, tmp);
      tmpParent := tmp;
      tmp := tmp.left;
      u := u.left;
    }
  }

  /** Only the grade sum of `x` is new. */
  twostate predicate Shifted(x: Tnode, d: int)
    reads x
  {
    x.key == old(x.key) && x.data == old(x.data) && x.tGrade == old(x.tGrade)
    && x.left == old(x.left) && x.right == old(x.right) && x.parent == old(x.parent)
    && x.height == old(x.height) && x.treeNodes == old(x.treeNodes) && x.sumGrades == old(x.sumGrades) + d
  }

  twostate lemma {:induction false} ShiftedRep(t: Shape, new p: Tnode?, new d: int)
    requires old(allocated(p))
    requires Distinct(t) && old(Rep(t, p))
    requires forall x :: x in Nodes(t) ==> old(allocated(x))
    requires forall x :: x in Spine(t) && x in Nodes(t) ==> Shifted(x, d)
    requires forall x :: x in Nodes(t) && x !in Spine(t) ==> unchanged(x)
    ensures SpineRep(t, p, d)
    decreases t
  {
    if t.Bin? {
      assert old(Rep(t.left, t.node)) && old(Rep(t.right, t.node));
      SpineInside(t.left);
      assert Nodes(t.right) <= Nodes(t) - Spine(t);
      assert Rep(t.right, t.node);
      ShiftedRep(t.left, t.node, d);
    }
  }

  /** In every sum along the left spine, the grade of the successor becomes the grade of the node it replaces. */
  method ShiftLoop(top: Tnode, newGrade: int, oldGrade: int, ghost r: Shape, ghost p: Tnode?)
    requires r.Bin? && r.node == top && Distinct(r) && Rep(r, p)
    modifies Spine(r)`sumGrades
    ensures forall x :: x in Spine(r) ==> old(allocated(x)) && x.sumGrades == old(x.sumGrades) + oldGrade - newGrade
  {
    NodesAllocated(r);
    SpineInside(r);
    var tmp := top;
    ghost var u, q := r, p;
    while tmp.left != null
      invariant u.Bin? && tmp == u.node && Distinct(u) && Rep(u, q)
      invariant Spine(u) <= Spine(r) && Nodes(u) <= Nodes(r)
      invariant forall x :: x in Spine(r) ==>
                  x.sumGrades == old(x.sumGrades) + if x in Spine(u) then 0 else oldGrade - newGrade
      decreases u
    {
      assert Rep(u.left, tmp);
      SpineInside(u.left);
      tmp.sumGrades := tmp.sumGrades - newGrade + oldGrade;
      tmp := tmp.left;
      u, q := u.left, u.node;
    }
    assert Spine(u.left) == {};
    tmp.sumGrades := tmp.sumGrades - newGrade + oldGrade;
  }

  method ShiftSums(top: Tnode, newGrade: int, oldGrade: int, ghost r: Shape, ghost p: Tnode?)
    requires r.Bin? && r.node == top && Distinct(r) && Rep(r, p)
    modifies Spine(r)`sumGrades
    ensures SpineRep(r, p, oldGrade - newGrade)
  {
    NodesAllocated(r);
    ShiftLoop(top, newGrade, oldGrade, r, p);
    ShiftedRep(r, p, oldGrade - newGrade);
  }
}
