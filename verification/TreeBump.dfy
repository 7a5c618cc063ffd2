/** A promotion in place: one node's grade rises, and with it the sums of all its ancestors. */
module TreeBump {
  import opened Staff
  import opened TreeShape
  import opened TreeLaws
  import opened TreeLinks
  import opened TreeSpine

  function BumpEntry(e: Entry, g: int): Entry {
    Entry(e.key.(grade := g), e.data.(grade := g), g)
  }

  /** The shape in which the entry of node `n` carries the grade `g`. */
  ghost function Bumped(t: Shape, n: Tnode, g: int): Shape {
    if t.Nil? then Nil
    else if n == t.node then t.(entry := BumpEntry(t.entry, g))
    else if n in Nodes(t.left) then t.(left := Bumped(t.left, n, g))
    else t.(right := Bumped(t.right, n, g))
  }

  /** The same on the in-order sequence. */
  function BumpKey(s: seq<Entry>, key: Employee, g: int): seq<Entry> {
    if s == [] then []
    else [if SamePlace(s[0].key, key) then BumpEntry(s[0], g) else s[0]] + BumpKey(s[1..], key, g)
  }

  ghost function EntryOf(t: Shape, n: Tnode): Entry
    requires n in Nodes(t)
  {
    if n == t.node then t.entry else if n in Nodes(t.left) then EntryOf(t.left, n) else EntryOf(t.right, n)
  }

  /** The node and its ancestors, upwards. */
  ghost function PathUp(t: Shape, n: Tnode): seq<Tnode>
    requires n in Nodes(t)
  {
    if n == t.node then [n]
    else if n in Nodes(t.left) then PathUp(t.left, n) + [t.node]
    else PathUp(t.right, n) + [t.node]
  }

  lemma {:induction false} PathInside(t: Shape, n: Tnode)
    requires n in Nodes(t) && Distinct(t)
    ensures var s := PathUp(t, n);
            && s != [] && s[0] == n && s[|s| - 1] == t.node
            && (forall i :: 0 <= i < |s| ==> s[i] in Nodes(t))
            && (forall i, j :: 0 <= i < j < |s| ==> s[i] != s[j])
  {
    if n != t.node {
      if n in Nodes(t.left) { PathInside(t.left, n); } else { PathInside(t.right, n); }
    }
  }

  lemma {:induction false} PathLinked(t: Shape, p: Tnode?, n: Tnode)
    requires n in Nodes(t) && Distinct(t) && Rep(t, p)
    ensures var s := PathUp(t, n);
            && s != [] && (forall i :: 0 <= i < |s| - 1 ==> s[i].parent == s[i + 1]) && s[|s| - 1].parent == p
  {
    PathInside(t, n);
    assert Linked(t, p) && Rep(t.left, t.node) && Rep(t.right, t.node);
    if n != t.node {
      if n in Nodes(t.left) {
        PathLinked(t.left, t.node, n);
        PathInside(t.left, n);
      } else {
        PathLinked(t.right, t.node, n);
        PathInside(t.right, n);
      }
    }
  }

  /** Adds `grade` to the sum of a node and of all its ancestors. */
  method SpecialSetGrades(start: Tnode, grade: int, ghost path: seq<Tnode>)
    requires path != [] && path[0] == start && path[|path| - 1].parent == null
    requires forall i :: 0 <= i < |path| - 1 ==> path[i].parent == path[i + 1]
    requires forall i, j :: 0 <= i < j < |path| ==> path[i] != path[j]
    modifies (set x | x in path)`sumGrades
    ensures forall x :: x in path ==> x.sumGrades == old(x.sumGrades) + grade
  {
    var node: Tnode? := start;
    ghost var i := 0;
    while node != null
      invariant 0 <= i <= |path| && node == if i < |path| then path[i] else null
      invariant forall k :: 0 <= k < i ==> path[k].sumGrades == old(path[k].sumGrades) + grade
      invariant forall k :: i <= k < |path| ==> path[k].sumGrades == old(path[k].sumGrades)
      decreases |path| - i
    {
      node.sumGrades := node.sumGrades + grade;
      node := node.parent;
      i := i + 1;
    }
  }

  /** What a promotion writes, seen from the subtree `t`. */
  twostate predicate BumpStep(t: Shape, n: Tnode, g: int, bump: int)
    requires n in Nodes(t) && forall x :: x in Nodes(t) ==> old(allocated(x))
    reads Nodes(t)
  {
    && n.tGrade == g && old(n.tGrade) == g - bump
    && n.key == old(n.key).(grade := g) && n.data == old(n.data).(grade := g)
    && (forall x :: x in Nodes(t) && x in PathUp(t, n) ==>
          && x.sumGrades == old(x.sumGrades) + bump
          && x.left == old(x.left) && x.right == old(x.right) && x.parent == old(x.parent)
          && x.height == old(x.height) && x.treeNodes == old(x.treeNodes)
          && (x != n ==> SameEntry(x)))
    && (forall x :: x in Nodes(t) && x !in PathUp(t, n) ==> unchanged(x))
  }

  lemma {:induction false} BumpedKeeps(t: Shape, n: Tnode, g: int)
    requires n in Nodes(t) && Distinct(t)
    ensures var u := Bumped(t, n, g);
            && Nodes(u) == Nodes(t) && Distinct(u) && Size(u) == Size(t) && Height(u) == Height(t)
            && Root(u) == Root(t) && Sum(u) == Sum(t) - EntryOf(t, n).grade + g
    ensures Avl(t) ==> Avl(Bumped(t, n, g))
  {
    if n != t.node {
      if n in Nodes(t.left) { BumpedKeeps(t.left, n, g); } else { BumpedKeeps(t.right, n, g); }
    }
  }

  lemma {:induction false} EntryOfRep(t: Shape, p: Tnode?, n: Tnode)
    requires n in Nodes(t) && Rep(t, p) && Distinct(t)
    ensures n.key == EntryOf(t, n).key && n.data == EntryOf(t, n).data && n.tGrade == EntryOf(t, n).grade
  {
    assert Linked(t, p) && Rep(t.left, t.node) && Rep(t.right, t.node);
    if n != t.node {
      if n in Nodes(t.left) { EntryOfRep(t.left, t.node, n); } else { EntryOfRep(t.right, t.node, n); }
    }
  }

  twostate lemma {:induction false} OldEntryOf(t: Shape, new p: Tnode?, new n: Tnode)
    requires old(allocated(p)) && old(allocated(n))
    requires n in Nodes(t) && old(Rep(t, p)) && Distinct(t)
    ensures old(n.tGrade) == EntryOf(t, n).grade
  {
    assert old(Rep(t.left, t.node)) && old(Rep(t.right, t.node));
    if n != t.node {
      if n in Nodes(t.left) { OldEntryOf(t.left, t.node, n); } else { OldEntryOf(t.right, t.node, n); }
    }
  }

  /** One level of the promotion when the node is in the left subtree. */
  twostate lemma {:induction false} BumpStepLeft(t: Shape, new p: Tnode?, new n: Tnode, new g: int, new bump: int)
    requires old(allocated(p)) && old(allocated(n))
    requires n in Nodes(t) && forall x :: x in Nodes(t) ==> old(allocated(x))
    requires Distinct(t) && old(Rep(t, p)) && BumpStep(t, n, g, bump)
    requires n != t.node && n in Nodes(t.left)
    ensures BumpStep(t.left, n, g, bump) && Rep(t.right, t.node)
    ensures SameEntry(t.node) && t.node.sumGrades == old(t.node.sumGrades) + bump
  {
    assert old(Rep(t.left, t.node)) && old(Rep(t.right, t.node));
    PathInside(t.left, n);
    assert PathUp(t, n) == PathUp(t.left, n) + [t.node];
    assert t.node == PathUp(t, n)[|PathUp(t, n)| - 1];
    assert forall x :: x in Nodes(t.left) ==> (x in PathUp(t, n) <==> x in PathUp(t.left, n));
    assert forall x :: x in Nodes(t.right) ==> x in Nodes(t) && x !in PathUp(t, n);
  }

  /** One level of the promotion when the node is in the right subtree. */
  twostate lemma {:induction false} BumpStepRight(t: Shape, new p: Tnode?, new n: Tnode, new g: int, new bump: int)
    requires old(allocated(p)) && old(allocated(n))
    requires n in Nodes(t) && forall x :: x in Nodes(t) ==> old(allocated(x))
    requires Distinct(t) && old(Rep(t, p)) && BumpStep(t, n, g, bump)
    requires n != t.node && n in Nodes(t.right)
    ensures BumpStep(t.right, n, g, bump) && Rep(t.left, t.node)
    ensures SameEntry(t.node) && t.node.sumGrades == old(t.node.sumGrades) + bump
  {
    assert old(Rep(t.left, t.node)) && old(Rep(t.right, t.node));
    PathInside(t.right, n);
    assert PathUp(t, n) == PathUp(t.right, n) + [t.node];
    assert t.node == PathUp(t, n)[|PathUp(t, n)| - 1];
    assert forall x :: x in Nodes(t.right) ==> (x in PathUp(t, n) <==> x in PathUp(t.right, n));
    assert forall x :: x in Nodes(t.left) ==> x in Nodes(t) && x !in PathUp(t, n);
  }

  /** After a promotion the nodes represent the bumped shape, every sum exact again. */
  twostate lemma {:induction false} BumpedRep(t: Shape, new p: Tnode?, new n: Tnode, new g: int, new bump: int)
    requires old(allocated(p)) && old(allocated(n))
    requires n in Nodes(t) && forall x :: x in Nodes(t) ==> old(allocated(x))
    requires Distinct(t) && old(Rep(t, p)) && BumpStep(t, n, g, bump)
    ensures Rep(Bumped(t, n, g), p)
    decreases t
  {
    assert old(Rep(t.left, t.node)) && old(Rep(t.right, t.node));
    OldEntryOf(t, p, n);
    BumpedKeeps(t, n, g);
    if n == t.node {
      assert PathUp(t, n) == [n] && n in PathUp(t, n);
      assert Nodes(t.left) <= Nodes(t) - {n} && Nodes(t.right) <= Nodes(t) - {n};
      assert Rep(t.left, n) && Rep(t.right, n);
    } else if n in Nodes(t.left) {
      BumpStepLeft(t, p, n, g, bump);
      BumpedRep(t.left, t.node, n, g, bump);
      BumpedKeeps(t.left, n, g);
      InPath(t, n);
    } else {
      BumpStepRight(t, p, n, g, bump);
      BumpedRep(t.right, t.node, n, g, bump);
      BumpedKeeps(t.right, n, g);
      InPath(t, n);
    }
  }

  lemma {:induction false} InPath(t: Shape, n: Tnode)
    requires n in Nodes(t) && Distinct(t)
    ensures t.node in PathUp(t, n)
  {
    PathInside(t, n);
  }

  /** The writes of a promotion: the node's three copies of the grade, then every sum up to the root. */
  method Promote(enode: Tnode, newGrade: int, bumpGrade: int, ghost t: Shape)
    requires enode in Nodes(t) && Distinct(t) && Rep(t, null) && newGrade == enode.tGrade + bumpGrade
    modifies Nodes(t)
    ensures Rep(Bumped(t, enode, newGrade), null)
  {
    hide Rep, Linked, Distinct, Bumped, PathUp, BumpStep;
    NodesAllocated(t);
    PathInside(t, enode);
    PathLinked(t, null, enode);
    SetGrades(enode, newGrade, bumpGrade, t, PathUp(t, enode));
    BumpedRep(t, null, enode, newGrade, bumpGrade);
  }

  /** All that a promotion writes. */
  method SetGrades(enode: Tnode, newGrade: int, bumpGrade: int, ghost t: Shape, ghost path: seq<Tnode>)
    requires enode in Nodes(t) && newGrade == enode.tGrade + bumpGrade && path == PathUp(t, enode)
    requires path != [] && path[0] == enode && path[|path| - 1].parent == null
    requires forall i :: 0 <= i < |path| ==> path[i] in Nodes(t)
    requires forall i :: 0 <= i < |path| - 1 ==> path[i].parent == path[i + 1]
    requires forall i, j :: 0 <= i < j < |path| ==> path[i] != path[j]
    modifies Nodes(t)
    ensures forall x :: x in Nodes(t) ==> old(allocated(x))
    ensures BumpStep(t, enode, newGrade, bumpGrade)
  {
    hide PathUp, Nodes;
    NodesAllocated(t);
    enode.tGrade := newGrade;
    enode.data := enode.data.(grade := newGrade);
    enode.key := enode.key.(grade := newGrade);
    SpecialSetGrades(enode, bumpGrade, path);
  }

  /** Everything a promotion keeps, on shapes. */
  lemma {:induction false} BumpedValid(t: Shape, n: Tnode, g: int)
    requires n in Nodes(t) && Distinct(t) && Avl(t) && Sorted(InOrder(t))
    ensures var u := Bumped(t, n, g);
            && Nodes(u) == Nodes(t) && Distinct(u) && Size(u) == Size(t) && Root(u) == Root(t) && Avl(u)
            && InOrder(u) == BumpKey(InOrder(t), EntryOf(t, n).key, g) && Sorted(InOrder(u))
  {
    BumpedKeeps(t, n, g);
    BumpedInOrder(t, n, g);
    BumpKeySorted(InOrder(t), EntryOf(t, n).key, g);
  }

  lemma {:induction false} BumpKeyNowhere(s: seq<Entry>, key: Employee, g: int)
    requires forall i :: 0 <= i < |s| ==> !SamePlace(s[i].key, key)
    ensures BumpKey(s, key, g) == s
  {
    if s != [] { BumpKeyNowhere(s[1..], key, g); }
  }

  lemma {:induction false} BumpKeyAppend(a: seq<Entry>, b: seq<Entry>, key: Employee, g: int)
    ensures BumpKey(a + b, key, g) == BumpKey(a, key, g) + BumpKey(b, key, g)
  {
    if a == [] {
      assert a + b == b;
    } else {
      assert (a + b)[1..] == a[1..] + b;
      BumpKeyAppend(a[1..], b, key, g);
    }
  }

  lemma {:induction false} EntryOfInOrder(t: Shape, n: Tnode)
    requires n in Nodes(t) && Distinct(t)
    ensures EntryOf(t, n) in InOrder(t)
  {
    if n != t.node {
      if n in Nodes(t.left) { EntryOfInOrder(t.left, n); } else { EntryOfInOrder(t.right, n); }
    }
  }

  /** On the sorted sequence a promotion changes the one entry at its place. */
  lemma {:induction false} BumpedInOrder(t: Shape, n: Tnode, g: int)
    requires n in Nodes(t) && Distinct(t) && Sorted(InOrder(t))
    ensures InOrder(Bumped(t, n, g)) == BumpKey(InOrder(t), EntryOf(t, n).key, g)
  {
    SortedParts(t);
    var a, b, key := InOrder(t.left), InOrder(t.right), EntryOf(t, n).key;
    BumpKeyAppend(a + [t.entry], b, key, g);
    BumpKeyAppend(a, [t.entry], key, g);
    assert BumpKey([t.entry], key, g) == [if SamePlace(t.entry.key, key) then BumpEntry(t.entry, g) else t.entry];
    if n == t.node {
      BumpKeyNowhere(a, key, g);
      BumpKeyNowhere(b, key, g);
    } else if n in Nodes(t.left) {
      EntryOfInOrder(t.left, n);
      BumpedInOrder(t.left, n, g);
      BumpKeyNowhere(b, key, g);
    } else {
      EntryOfInOrder(t.right, n);
      BumpedInOrder(t.right, n, g);
      BumpKeyNowhere(a, key, g);
    }
  }

  lemma {:induction false} BumpKeySorted(s: seq<Entry>, key: Employee, g: int)
    ensures |BumpKey(s, key, g)| == |s|
    ensures forall i :: 0 <= i < |s| ==>
              BumpKey(s, key, g)[i] == if SamePlace(s[i].key, key) then BumpEntry(s[i], g) else s[i]
    ensures Sorted(s) ==> Sorted(BumpKey(s, key, g))
  {
    if s != [] { BumpKeySorted(s[1..], key, g); }
  }
}
