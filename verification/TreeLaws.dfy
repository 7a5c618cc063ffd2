/** What the transformations of TreeShape.dfy keep and what they do to the in-order sequence. */
module TreeLaws {
  import opened Staff
  import opened TreeShape

  // ----- balancing -----

  lemma {:induction false} LeftKeeps(t: Shape, u: Shape)
    requires t.Bin? && InOrder(u) == InOrder(t.left) && Nodes(u) == Nodes(t.left)
    requires Size(u) == Size(t.left) && Sum(u) == Sum(t.left) && (Distinct(t.left) ==> Distinct(u))
    ensures InOrder(t.(left := u)) == InOrder(t) && Nodes(t.(left := u)) == Nodes(t)
    ensures Size(t.(left := u)) == Size(t) && Sum(t.(left := u)) == Sum(t)
    ensures Distinct(t) ==> Distinct(t.(left := u))
  {
  }

  lemma {:induction false} RightKeeps(t: Shape, u: Shape)
    requires t.Bin? && InOrder(u) == InOrder(t.right) && Nodes(u) == Nodes(t.right)
    requires Size(u) == Size(t.right) && Sum(u) == Sum(t.right) && (Distinct(t.right) ==> Distinct(u))
    ensures InOrder(t.(right := u)) == InOrder(t) && Nodes(t.(right := u)) == Nodes(t)
    ensures Size(t.(right := u)) == Size(t) && Sum(t.(right := u)) == Sum(t)
    ensures Distinct(t) ==> Distinct(t.(right := u))
  {
  }

  /** `Balance` rearranges links only. */
  lemma {:induction false} BalanceKeeps(t: Shape)
    ensures InOrder(Balance(t)) == InOrder(t)
    ensures Nodes(Balance(t)) == Nodes(t) && Size(Balance(t)) == Size(t) && Sum(Balance(t)) == Sum(t)
    ensures Distinct(t) ==> Distinct(Balance(t))
  {
    hide InOrder, Nodes, Size, Sum, Distinct;
    if Factor(t) > 1 {
      if Factor(t.left) < 0 {
        RotateLeftKeeps(t.left);
        LeftKeeps(t, RotateLeft(t.left));
        RotateRightKeeps(t.(left := RotateLeft(t.left)));
      } else {
        RotateRightKeeps(t);
      }
    } else if Factor(t) < -1 {
      if Factor(t.right) > 0 {
        RotateRightKeeps(t.right);
        RightKeeps(t, RotateRight(t.right));
        RotateLeftKeeps(t.(right := RotateRight(t.right)));
      } else {
        RotateLeftKeeps(t);
      }
    }
  }

  lemma {:induction false} RotateRightKeeps(t: Shape)
    requires t.Bin? && t.left.Bin?
    ensures InOrder(RotateRight(t)) == InOrder(t)
    ensures Nodes(RotateRight(t)) == Nodes(t)
    ensures Size(RotateRight(t)) == Size(t) && Sum(RotateRight(t)) == Sum(t)
    ensures Distinct(t) ==> Distinct(RotateRight(t))
  {
    var a, b, c := InOrder(t.left.left), InOrder(t.left.right), InOrder(t.right);
    assert Distinct(t) ==> Distinct(t.left) && Distinct(RotateRight(t).right);
    assert InOrder(RotateRight(t)) == a + [t.left.entry] + (b + [t.entry] + c);
    assert InOrder(t) == (a + [t.left.entry] + b) + [t.entry] + c;
  }

  lemma {:induction false} RotateLeftKeeps(t: Shape)
    requires t.Bin? && t.right.Bin?
    ensures InOrder(RotateLeft(t)) == InOrder(t)
    ensures Nodes(RotateLeft(t)) == Nodes(t)
    ensures Size(RotateLeft(t)) == Size(t) && Sum(RotateLeft(t)) == Sum(t)
    ensures Distinct(t) ==> Distinct(RotateLeft(t))
  {
    var a, b, c := InOrder(t.left), InOrder(t.right.left), InOrder(t.right.right);
    assert Distinct(t) ==> Distinct(t.right) && Distinct(RotateLeft(t).left);
    assert InOrder(RotateLeft(t)) == (a + [t.entry] + b) + [t.right.entry] + c;
    assert InOrder(t) == a + [t.entry] + (b + [t.right.entry] + c);
  }

  lemma {:induction false} BalanceLeftHeavy(t: Shape)
    requires t.Bin? && Avl(t.left) && Avl(t.right) && Factor(t) == 2
    ensures Avl(Balance(t)) && Height(t) - 1 <= Height(Balance(t)) <= Height(t)
  {
    var l := t.left;
    assert Avl(l.left) && Avl(l.right);
    if Factor(l) < 0 {
      var m := l.right;
      assert Avl(m.left) && Avl(m.right);
      var a, b := Bin(l.left, l.node, l.entry, m.left), Bin(m.right, t.node, t.entry, t.right);
      assert Balance(t) == Bin(a, m.node, m.entry, b);
      assert Avl(a) && Avl(b) && Height(a) == Height(b) == Height(l) - 1;
    } else {
      var b := Bin(l.right, t.node, t.entry, t.right);
      assert Balance(t) == Bin(l.left, l.node, l.entry, b);
      assert Avl(b);
    }
  }

  lemma {:induction false} BalanceRightHeavy(t: Shape)
    requires t.Bin? && Avl(t.left) && Avl(t.right) && Factor(t) == -2
    ensures Avl(Balance(t)) && Height(t) - 1 <= Height(Balance(t)) <= Height(t)
  {
    var r := t.right;
    assert Avl(r.left) && Avl(r.right);
    if Factor(r) > 0 {
      var m := r.left;
      assert Avl(m.left) && Avl(m.right);
      var a, b := Bin(t.left, t.node, t.entry, m.left), Bin(m.right, r.node, r.entry, r.right);
      assert Balance(t) == Bin(a, m.node, m.entry, b);
      assert Avl(a) && Avl(b) && Height(a) == Height(b) == Height(r) - 1;
    } else {
      var a := Bin(t.left, t.node, t.entry, r.left);
      assert Balance(t) == Bin(a, r.node, r.entry, r.right);
      assert Avl(a);
    }
  }

  /** One call of `Balance` repairs a node whose subtrees are AVL trees at most two levels apart. */
  lemma {:induction false} BalanceAvl(t: Shape)
    requires t.Bin? && Avl(t.left) && Avl(t.right) && -2 <= Factor(t) <= 2
    ensures Avl(Balance(t)) && Height(t) - 1 <= Height(Balance(t)) <= Height(t)
    ensures Avl(t) ==> Balance(t) == t
  {
    if Factor(t) == 2 {
      BalanceLeftHeavy(t);
    } else if Factor(t) == -2 {
      BalanceRightHeavy(t);
    } else {
      assert Balance(t) == t && Avl(t);
    }
  }

  // ----- insertion -----

  lemma {:induction false} InsertKeeps(t: Shape, n: Tnode, e: Entry)
    ensures var r := Insert(t, n, e);
            && Nodes(r) == Nodes(t) + {n} && Size(r) == Size(t) + 1 && Sum(r) == Sum(t) + e.grade
            && (Distinct(t) && n !in Nodes(t) ==> Distinct(r))
  {
    if t.Bin? {
      if Less(t.entry.key, e.key) {
        InsertKeeps(t.right, n, e);
        BalanceKeeps(t.(right := Insert(t.right, n, e)));
      } else {
        InsertKeeps(t.left, n, e);
        BalanceKeeps(t.(left := Insert(t.left, n, e)));
      }
    }
  }

  lemma {:induction false} InsertAvl(t: Shape, n: Tnode, e: Entry)
    requires Avl(t)
    ensures Avl(Insert(t, n, e)) && Height(t) <= Height(Insert(t, n, e)) <= Height(t) + 1
  {
    if t.Bin? {
      if Less(t.entry.key, e.key) {
        InsertAvl(t.right, n, e);
        BalanceAvl(t.(right := Insert(t.right, n, e)));
      } else {
        InsertAvl(t.left, n, e);
        BalanceAvl(t.(left := Insert(t.left, n, e)));
      }
    }
  }

  lemma {:induction false} InsertEntryAfter(a: seq<Entry>, b: seq<Entry>, e: Entry)
    requires forall i :: 0 <= i < |a| ==> Less(a[i].key, e.key)
    ensures InsertEntry(a + b, e) == a + InsertEntry(b, e)
  {
    if a == [] {
      assert a + b == b;
    } else {
      assert (a + b)[1..] == a[1..] + b;
      InsertEntryAfter(a[1..], b, e);
    }
  }

  lemma {:induction false} InsertEntryBefore(a: seq<Entry>, b: seq<Entry>, e: Entry)
    requires b != [] && !Less(b[0].key, e.key)
    ensures InsertEntry(a + b, e) == InsertEntry(a, e) + b
  {
    if a == [] {
      assert a + b == b;
    } else {
      assert (a + b)[1..] == a[1..] + b;
      InsertEntryBefore(a[1..], b, e);
    }
  }

  /** The parts of a sorted tree are sorted, and the root separates them. */
  lemma {:induction false} SortedParts(t: Shape)
    requires t.Bin? && Sorted(InOrder(t))
    ensures Sorted(InOrder(t.left)) && Sorted(InOrder(t.right))
    ensures forall i :: 0 <= i < |InOrder(t.left)| ==> Less(InOrder(t.left)[i].key, t.entry.key)
    ensures forall i :: 0 <= i < |InOrder(t.right)| ==> Less(t.entry.key, InOrder(t.right)[i].key)
  {
    var s, a, b := InOrder(t), InOrder(t.left), InOrder(t.right);
    assert s[|a|] == t.entry;
    assert forall i :: 0 <= i < |a| ==> a[i] == s[i];
    assert forall i :: 0 <= i < |b| ==> b[i] == s[|a| + 1 + i];
  }

  lemma {:induction false} InsertEntryRight(a: seq<Entry>, x: Entry, b: seq<Entry>, e: Entry)
    requires Less(x.key, e.key) && forall i :: 0 <= i < |a| ==> Less(a[i].key, x.key)
    ensures InsertEntry(a + [x] + b, e) == a + [x] + InsertEntry(b, e)
  {
    InsertEntryAfter(a + [x], b, e);
  }

  lemma {:induction false} InsertEntryLeft(a: seq<Entry>, x: Entry, b: seq<Entry>, e: Entry)
    requires !Less(x.key, e.key)
    ensures InsertEntry(a + [x] + b, e) == InsertEntry(a, e) + [x] + b
  {
    InsertEntryBefore(a, [x] + b, e);
    assert a + [x] + b == a + ([x] + b);
    assert InsertEntry(a, e) + ([x] + b) == InsertEntry(a, e) + [x] + b;
  }

  /** Insertion puts the new entry at its place in the sorted sequence and moves nothing else. */
  lemma {:induction false} InsertInOrder(t: Shape, n: Tnode, e: Entry)
    requires Sorted(InOrder(t))
    ensures InOrder(Insert(t, n, e)) == InsertEntry(InOrder(t), e)
  {
    if t.Nil? {
      assert InOrder(Insert(t, n, e)) == [e];
    } else {
      SortedParts(t);
      if Less(t.entry.key, e.key) {
        InsertInOrder(t.right, n, e);
        BalanceKeeps(t.(right := Insert(t.right, n, e)));
        InsertEntryRight(InOrder(t.left), t.entry, InOrder(t.right), e);
      } else {
        InsertInOrder(t.left, n, e);
        BalanceKeeps(t.(left := Insert(t.left, n, e)));
        InsertEntryLeft(InOrder(t.left), t.entry, InOrder(t.right), e);
      }
    }
  }

  /** The reference insertion: the old sequence cut at one place, with the entry in the cut. */
  lemma {:induction false} InsertEntrySplits(s: seq<Entry>, e: Entry) returns (k: nat)
    requires Sorted(s) && forall i :: 0 <= i < |s| ==> !SamePlace(s[i].key, e.key)
    ensures k <= |s| && InsertEntry(s, e) == s[..k] + [e] + s[k..]
    ensures Sorted(InsertEntry(s, e))
  {
    if s == [] || !Less(s[0].key, e.key) {
      k := 0;
    } else {
      var j := InsertEntrySplits(s[1..], e);
      k := j + 1;
      assert s[..k] == [s[0]] + s[1..][..j];
      var r := InsertEntry(s, e);
      assert r == s[..k] + [e] + s[k..];
      assert r[1..] == InsertEntry(s[1..], e);
      forall i, m | 0 <= i < m < |r|
        ensures Less(r[i].key, r[m].key)
      {
        if i == 0 {
          if m < k { assert r[m] == s[m]; }
          else if m > k { assert r[m] == s[m - 1]; }
        } else {
          assert r[i] == r[1..][i - 1] && r[m] == r[1..][m - 1];
        }
      }
    }
  }

  // ----- deletion -----

  /** Every node on the left path above the leftmost one is greater than `key`. */
  ghost predicate LeftPathAbove(t: Shape, key: Employee) {
    t.Bin? && t.left.Bin? ==> Less(key, t.entry.key) && LeftPathAbove(t.left, key)
  }

  /** What deletion needs of the descent: it ends at `key`, and so does the second descent after the swap. */
  ghost predicate Removable(t: Shape, key: Employee) {
    t.Bin? &&
    if Less(t.entry.key, key) then Removable(t.right, key)
    else if Less(key, t.entry.key) then Removable(t.left, key)
    else t.left.Bin? && t.right.Bin? ==> LeftPathAbove(t.right, key)
  }

  ghost function Found(t: Shape, key: Employee): (p: (Tnode, Entry))
    requires Finds(t, key)
  {
    if Less(t.entry.key, key) then Found(t.right, key)
    else if Less(key, t.entry.key) then Found(t.left, key)
    else (t.node, t.entry)
  }

  function DropLeftmost(t: Shape): Shape
    requires t.Bin?
  {
    if t.left.Nil? then t.right else Balance(t.(left := DropLeftmost(t.left)))
  }

  lemma {:induction false} DropLeftmostKeeps(t: Shape)
    requires t.Bin?
    ensures var (s, e) := Leftmost(t);
            && InOrder(t) == [e] + InOrder(DropLeftmost(t))
            && Size(DropLeftmost(t)) == Size(t) - 1 && Sum(DropLeftmost(t)) == Sum(t) - e.grade
            && Nodes(t) == Nodes(DropLeftmost(t)) + {s}
            && (Distinct(t) ==> Distinct(DropLeftmost(t)) && s !in Nodes(DropLeftmost(t)))
  {
    if t.left.Bin? {
      DropLeftmostKeeps(t.left);
      BalanceKeeps(t.(left := DropLeftmost(t.left)));
    }
  }

  lemma {:induction false} DropLeftmostAvl(t: Shape)
    requires t.Bin? && Avl(t)
    ensures Avl(DropLeftmost(t)) && Height(t) - 1 <= Height(DropLeftmost(t)) <= Height(t)
  {
    if t.left.Bin? {
      DropLeftmostAvl(t.left);
      BalanceAvl(t.(left := DropLeftmost(t.left)));
    }
  }

  lemma {:induction false} WithLeftmostKeeps(t: Shape, n: Tnode, e: Entry)
    requires t.Bin? && Distinct(t) && n !in Nodes(t)
    ensures var (s, se) := Leftmost(t);
            && s in Nodes(t)
            && Sum(WithLeftmost(t, n, e)) == Sum(t) - se.grade + e.grade
            && Nodes(WithLeftmost(t, n, e)) == Nodes(t) - {s} + {n}
            && Distinct(WithLeftmost(t, n, e))
    ensures Avl(t) ==> Avl(WithLeftmost(t, n, e))
  {
    if t.left.Bin? {
      WithLeftmostKeeps(t.left, n, e);
    }
  }

  /** After the swap the second descent removes exactly the leftmost place. */
  lemma {:induction false} DeleteSwapped(t: Shape, n: Tnode, e: Entry, key: Employee)
    requires t.Bin? && SamePlace(e.key, key) && LeftPathAbove(t, key)
    ensures Delete(WithLeftmost(t, n, e), key) == DropLeftmost(t)
    ensures Removable(WithLeftmost(t, n, e), key)
    ensures Finds(WithLeftmost(t, n, e), key) && Found(WithLeftmost(t, n, e), key) == (n, e)
  {
    if t.left.Bin? {
      DeleteSwapped(t.left, n, e, key);
    } else {
      assert !Less(e.key, key) && !Less(key, e.key);
    }
  }

  /** A node with two sons is replaced by its successor, which leaves the right subtree. */
  lemma {:induction false} DeleteWithTwoSons(t: Shape, key: Employee)
    requires t.Bin? && t.left.Bin? && t.right.Bin? && SamePlace(t.entry.key, key) && LeftPathAbove(t.right, key)
    ensures var (s, e) := Leftmost(t.right);
            Delete(t, key) == Balance(Bin(t.left, s, e, DropLeftmost(t.right)))
  {
    DeleteSwapped(t.right, t.node, t.entry, key);
  }

  lemma {:induction false} DeleteKeeps(t: Shape, key: Employee)
    requires Removable(t, key)
    ensures Finds(t, key)
    ensures var (n, e) := Found(t, key);
            && Nodes(t) == Nodes(Delete(t, key)) + {n}
            && Size(Delete(t, key)) == Size(t) - 1 && Sum(Delete(t, key)) == Sum(t) - e.grade
            && (Distinct(t) ==> Distinct(Delete(t, key)) && n !in Nodes(Delete(t, key)))
  {
    if Less(t.entry.key, key) {
      DeleteKeeps(t.right, key);
      BalanceKeeps(t.(right := Delete(t.right, key)));
    } else if Less(key, t.entry.key) {
      DeleteKeeps(t.left, key);
      BalanceKeeps(t.(left := Delete(t.left, key)));
    } else if t.left.Bin? && t.right.Bin? {
      DeleteWithTwoSons(t, key);
      DropLeftmostKeeps(t.right);
      var (s, e) := Leftmost(t.right);
      BalanceKeeps(Bin(t.left, s, e, DropLeftmost(t.right)));
    }
  }

  lemma {:induction false} DeleteRootAvl(t: Shape, key: Employee)
    requires Removable(t, key) && Avl(t) && SamePlace(t.entry.key, key)
    ensures Avl(Delete(t, key)) && Height(t) - 1 <= Height(Delete(t, key)) <= Height(t)
  {
    if t.left.Bin? && t.right.Bin? {
      DeleteWithTwoSons(t, key);
      DropLeftmostAvl(t.right);
      var (s, e) := Leftmost(t.right);
      BalanceAvl(Bin(t.left, s, e, DropLeftmost(t.right)));
    }
  }

  lemma {:induction false} DeleteAvl(t: Shape, key: Employee)
    requires Removable(t, key) && Avl(t)
    ensures Avl(Delete(t, key)) && Height(t) - 1 <= Height(Delete(t, key)) <= Height(t)
  {
    if Less(t.entry.key, key) {
      DeleteAvl(t.right, key);
      BalanceAvl(t.(right := Delete(t.right, key)));
    } else if Less(key, t.entry.key) {
      DeleteAvl(t.left, key);
      BalanceAvl(t.(left := Delete(t.left, key)));
    } else {
      DeleteRootAvl(t, key);
    }
  }

  /** A descent that runs off the tree takes nothing out, and there is nothing to balance on the way back. */
  lemma {:induction false} DeleteNothing(t: Shape, key: Employee)
    requires Avl(t) && !Finds(t, key)
    ensures Delete(t, key) == t
  {
    if t.Bin? {
      if Less(t.entry.key, key) {
        DeleteNothing(t.right, key);
      } else {
        DeleteNothing(t.left, key);
      }
    }
  }

  lemma {:induction false} DeleteSonAvl(c: Shape, key: Employee)
    requires Distinct(c) && Avl(c) && (Finds(c, key) ==> Removable(c, key))
    ensures Distinct(Delete(c, key)) && Avl(Delete(c, key)) && Nodes(Delete(c, key)) <= Nodes(c)
    ensures Height(c) - 1 <= Height(Delete(c, key)) <= Height(c)
    ensures Sum(Delete(c, key)) == Sum(c) - if Finds(c, key) then Found(c, key).1.grade else 0
    ensures !Finds(c, key) ==> Delete(c, key) == c
  {
    if Finds(c, key) {
      DeleteKeeps(c, key);
      DeleteAvl(c, key);
    } else {
      DeleteNothing(c, key);
    }
  }

  /** What a frame of the descent to the right needs to know about the subtree it gets back. */
  lemma {:induction false} DeleteSonRight(t: Shape, v: Shape, key: Employee)
    requires t.Bin? && Distinct(t) && Avl(t) && (Finds(t.right, key) ==> Removable(t.right, key))
    requires v == t.(right := Delete(t.right, key))
    ensures Distinct(v) && Nodes(v) <= Nodes(t) && Nodes(Balance(v)) == Nodes(v)
    ensures Avl(v.left) && Avl(v.right) && -2 <= Factor(v) <= 2
    ensures Sum(v) == Sum(t) - if Finds(t.right, key) then Found(t.right, key).1.grade else 0
    ensures !Finds(t.right, key) ==> v == t && -1 <= Factor(v) <= 1
    ensures Less(t.entry.key, key) ==> Finds(t, key) == Finds(t.right, key) && Delete(t, key) == Balance(v)
    ensures Less(t.entry.key, key) && !Finds(t, key) ==> Delete(t, key) == t
  {
    DeleteSonAvl(t.right, key);
    BalanceKeeps(v);
    if !Finds(t.right, key) && Less(t.entry.key, key) {
      DeleteNothing(t, key);
    }
  }

  /** The same to the left. */
  lemma {:induction false} DeleteSonLeft(t: Shape, v: Shape, key: Employee)
    requires t.Bin? && Distinct(t) && Avl(t) && (Finds(t.left, key) ==> Removable(t.left, key))
    requires v == t.(left := Delete(t.left, key))
    ensures Distinct(v) && Nodes(v) <= Nodes(t) && Nodes(Balance(v)) == Nodes(v)
    ensures Avl(v.left) && Avl(v.right) && -2 <= Factor(v) <= 2
    ensures Sum(v) == Sum(t) - if Finds(t.left, key) then Found(t.left, key).1.grade else 0
    ensures !Finds(t.left, key) ==> v == t && -1 <= Factor(v) <= 1
    ensures Less(key, t.entry.key) ==> Finds(t, key) == Finds(t.left, key) && Delete(t, key) == Balance(v)
    ensures Less(key, t.entry.key) && !Finds(t, key) ==> Delete(t, key) == t
  {
    DeleteSonAvl(t.left, key);
    BalanceKeeps(v);
    if !Finds(t.left, key) && Less(key, t.entry.key) {
      DeleteNothing(t, key);
    }
  }

  lemma {:induction false} RemoveKeyAfter(a: seq<Entry>, b: seq<Entry>, key: Employee)
    requires forall i :: 0 <= i < |a| ==> Less(a[i].key, key)
    ensures RemoveKey(a + b, key) == a + RemoveKey(b, key)
  {
    if a == [] {
      assert a + b == b;
    } else {
      assert (a + b)[1..] == a[1..] + b;
      RemoveKeyAfter(a[1..], b, key);
    }
  }

  lemma {:induction false} RemoveKeyBefore(a: seq<Entry>, b: seq<Entry>, key: Employee)
    requires exists i :: 0 <= i < |a| && SamePlace(a[i].key, key)
    ensures RemoveKey(a + b, key) == RemoveKey(a, key) + b
  {
    assert (a + b)[1..] == a[1..] + b;
    if !SamePlace(a[0].key, key) {
      var i :| 0 <= i < |a| && SamePlace(a[i].key, key);
      assert SamePlace(a[1..][i - 1].key, key);
      RemoveKeyBefore(a[1..], b, key);
    }
  }

  lemma {:induction false} FoundInOrder(t: Shape, key: Employee)
    requires Finds(t, key)
    ensures exists i :: 0 <= i < |InOrder(t)| && InOrder(t)[i] == Found(t, key).1
    ensures SamePlace(Found(t, key).1.key, key)
  {
    var s, a, b := InOrder(t), InOrder(t.left), InOrder(t.right);
    if Less(t.entry.key, key) {
      FoundInOrder(t.right, key);
      var i :| 0 <= i < |b| && b[i] == Found(t, key).1;
      assert s[|a| + 1 + i] == b[i];
    } else if Less(key, t.entry.key) {
      FoundInOrder(t.left, key);
      var i :| 0 <= i < |a| && a[i] == Found(t, key).1;
      assert s[i] == a[i];
    } else {
      assert s[|a|] == t.entry;
    }
  }

  lemma {:induction false} RemoveKeyRight(a: seq<Entry>, x: Entry, b: seq<Entry>, key: Employee)
    requires Less(x.key, key) && forall i :: 0 <= i < |a| ==> Less(a[i].key, x.key)
    ensures RemoveKey(a + [x] + b, key) == a + [x] + RemoveKey(b, key)
  {
    RemoveKeyAfter(a + [x], b, key);
  }

  lemma {:induction false} RemoveKeyLeft(a: seq<Entry>, x: Entry, b: seq<Entry>, key: Employee)
    requires exists i :: 0 <= i < |a| && SamePlace(a[i].key, key)
    ensures RemoveKey(a + [x] + b, key) == RemoveKey(a, key) + [x] + b
  {
    RemoveKeyBefore(a, [x] + b, key);
    assert a + [x] + b == a + ([x] + b);
    assert RemoveKey(a, key) + ([x] + b) == RemoveKey(a, key) + [x] + b;
  }

  lemma {:induction false} RemoveKeyHere(a: seq<Entry>, x: Entry, b: seq<Entry>, key: Employee)
    requires SamePlace(x.key, key) && forall i :: 0 <= i < |a| ==> Less(a[i].key, x.key)
    ensures RemoveKey(a + [x] + b, key) == a + b
  {
    RemoveKeyAfter(a, [x] + b, key);
    assert a + [x] + b == a + ([x] + b);
    assert ([x] + b)[1..] == b;
  }

  /** Deletion takes the key out of the sorted sequence and moves nothing else. */
  lemma {:induction false} DeleteInOrder(t: Shape, key: Employee)
    requires Sorted(InOrder(t)) && Removable(t, key)
    ensures InOrder(Delete(t, key)) == RemoveKey(InOrder(t), key)
  {
    SortedParts(t);
    if Less(t.entry.key, key) {
      DeleteInOrder(t.right, key);
      BalanceKeeps(t.(right := Delete(t.right, key)));
      RemoveKeyRight(InOrder(t.left), t.entry, InOrder(t.right), key);
    } else if Less(key, t.entry.key) {
      DeleteInOrder(t.left, key);
      BalanceKeeps(t.(left := Delete(t.left, key)));
      DeleteKeeps(t.left, key);
      FoundInOrder(t.left, key);
      RemoveKeyLeft(InOrder(t.left), t.entry, InOrder(t.right), key);
    } else {
      RemoveKeyHere(InOrder(t.left), t.entry, InOrder(t.right), key);
      DeleteRootInOrder(t, key);
    }
  }

  lemma {:induction false} DeleteRootInOrder(t: Shape, key: Employee)
    requires Removable(t, key) && SamePlace(t.entry.key, key)
    ensures InOrder(Delete(t, key)) == InOrder(t.left) + InOrder(t.right)
  {
    var a, b := InOrder(t.left), InOrder(t.right);
    if t.left.Bin? && t.right.Bin? {
      DeleteWithTwoSons(t, key);
      DropLeftmostKeeps(t.right);
      var (s, e) := Leftmost(t.right);
      BalanceKeeps(Bin(t.left, s, e, DropLeftmost(t.right)));
      assert a + [e] + InOrder(DropLeftmost(t.right)) == a + b;
    }
  }

  // ----- searching -----

  /** Where the search by identity stops: at the first node on the descent that carries the same id. */
  ghost function Lookup(t: Shape, key: Employee): Shape {
    if t.Nil? || SameId(t.entry.key, key) then t
    else if Less(t.entry.key, key) then Lookup(t.right, key)
    else Lookup(t.left, key)
  }

  ghost predicate Stores(s: seq<Entry>, key: Employee) {
    exists i :: 0 <= i < |s| && SamePlace(s[i].key, key)
  }

  lemma {:induction false} LookupInOrder(t: Shape, key: Employee)
    requires Lookup(t, key).Bin?
    ensures exists i :: 0 <= i < |InOrder(t)| && InOrder(t)[i] == Lookup(t, key).entry
    ensures SameId(Lookup(t, key).entry.key, key) && Lookup(t, key).node in Nodes(t)
  {
    var s, a, b := InOrder(t), InOrder(t.left), InOrder(t.right);
    assert s[|a|] == t.entry;
    if !SameId(t.entry.key, key) {
      if Less(t.entry.key, key) {
        LookupInOrder(t.right, key);
        var i :| 0 <= i < |b| && b[i] == Lookup(t, key).entry;
        assert s[|a| + 1 + i] == b[i];
      } else {
        LookupInOrder(t.left, key);
        var i :| 0 <= i < |a| && a[i] == Lookup(t, key).entry;
        assert s[i] == a[i];
      }
    }
  }

  /** A stored key is never missed, although the search compares ids before it compares order. */
  lemma {:induction false} LookupHits(t: Shape, key: Employee)
    requires Sorted(InOrder(t)) && Stores(InOrder(t), key)
    ensures Lookup(t, key).Bin?
  {
    SortedParts(t);
    var s, a, b := InOrder(t), InOrder(t.left), InOrder(t.right);
    var i :| 0 <= i < |s| && SamePlace(s[i].key, key);
    if !SameId(t.entry.key, key) {
      if i < |a| {
        assert SamePlace(a[i].key, key);
        LookupHits(t.left, key);
      } else {
        assert i != |a|;
        assert SamePlace(b[i - |a| - 1].key, key);
        LookupHits(t.right, key);
      }
    }
  }

  /** What the search means: a hit is an entry with the id; no hit, then the key is not stored at its salary. */
  lemma {:induction false} SearchExact(t: Shape, key: Employee)
    requires Sorted(InOrder(t))
    ensures Lookup(t, key).Bin? ==> Lookup(t, key).entry in InOrder(t) && Lookup(t, key).entry.key.id == key.id
    ensures Lookup(t, key).Nil? ==>
              forall e :: e in InOrder(t) ==> !(e.key.id == key.id && e.key.salary == key.salary)
  {
    if Lookup(t, key).Bin? {
      LookupInOrder(t, key);
    } else {
      forall e | e in InOrder(t)
        ensures !(e.key.id == key.id && e.key.salary == key.salary)
      {
        if SamePlace(e.key, key) {
          assert Stores(InOrder(t), key);
          LookupHits(t, key);
        }
      }
    }
  }

  lemma {:induction false} AllAboveLeftPath(t: Shape, key: Employee)
    requires forall i :: 0 <= i < |InOrder(t)| ==> Less(key, InOrder(t)[i].key)
    ensures LeftPathAbove(t, key)
  {
    if t.Bin? && t.left.Bin? {
      var s, a := InOrder(t), InOrder(t.left);
      assert s[|a|] == t.entry;
      assert forall i :: 0 <= i < |a| ==> a[i] == s[i];
      AllAboveLeftPath(t.left, key);
    }
  }

  lemma {:induction false} RemoveKeyMembers(s: seq<Entry>, key: Employee)
    requires Sorted(s)
    ensures forall e :: e in RemoveKey(s, key) <==> e in s && !SamePlace(e.key, key)
  {
    if s != [] {
      RemoveKeyMembers(s[1..], key);
      assert s == [s[0]] + s[1..];
      if SamePlace(s[0].key, key) {
        assert forall i :: 1 <= i < |s| ==> Less(s[0].key, s[i].key);
      }
    }
  }

  lemma {:induction false} RemoveKeyAbove(s: seq<Entry>, key: Employee, low: Employee)
    requires forall i :: 0 <= i < |s| ==> Less(low, s[i].key)
    ensures forall i :: 0 <= i < |RemoveKey(s, key)| ==> Less(low, RemoveKey(s, key)[i].key)
  {
    if s != [] {
      RemoveKeyAbove(s[1..], key, low);
    }
  }

  lemma {:induction false} RemoveKeySorted(s: seq<Entry>, key: Employee)
    requires Sorted(s)
    ensures Sorted(RemoveKey(s, key))
  {
    if s != [] && !SamePlace(s[0].key, key) {
      RemoveKeySorted(s[1..], key);
      RemoveKeyAbove(s[1..], key, s[0].key);
    }
  }

  /** Everything a successful insertion keeps, on shapes. */
  lemma {:induction false} InsertValid(t: Shape, n: Tnode, e: Entry)
    requires Distinct(t) && n !in Nodes(t) && Avl(t) && Sorted(InOrder(t)) && Lookup(t, e.key).Nil?
    ensures var r := Insert(t, n, e);
            && Distinct(r) && Avl(r) && Sorted(InOrder(r)) && Nodes(r) == Nodes(t) + {n} && Size(r) == Size(t) + 1
            && InOrder(r) == InsertEntry(InOrder(t), e)
  {
    InsertKeeps(t, n, e);
    InsertAvl(t, n, e);
    InsertInOrder(t, n, e);
    if Stores(InOrder(t), e.key) {
      LookupHits(t, e.key);
    }
    assert forall i :: 0 <= i < |InOrder(t)| ==> !SamePlace(InOrder(t)[i].key, e.key);
    var k := InsertEntrySplits(InOrder(t), e);
  }

  // ----- when a removal counts -----

  /** A key that is stored at its salary is on the descent that looks for it. */
  lemma {:induction false} StoredRemovable(t: Shape, key: Employee)
    requires Sorted(InOrder(t)) && Stores(InOrder(t), key)
    ensures Removable(t, key)
  {
    SortedParts(t);
    var s, a, b := InOrder(t), InOrder(t.left), InOrder(t.right);
    var i :| 0 <= i < |s| && SamePlace(s[i].key, key);
    if i < |a| {
      assert SamePlace(a[i].key, key);
      StoredRemovable(t.left, key);
    } else if i > |a| {
      assert SamePlace(b[i - |a| - 1].key, key);
      StoredRemovable(t.right, key);
    } else if t.right.Bin? {
      AllAboveLeftPath(t.right, key);
    }
  }

  lemma {:induction false} RemoveKeyNothing(s: seq<Entry>, key: Employee)
    requires !Stores(s, key)
    ensures RemoveKey(s, key) == s
  {
    if s != [] {
      assert forall i :: 0 <= i < |s[1..]| ==> s[1..][i] == s[i + 1];
      RemoveKeyNothing(s[1..], key);
    }
  }

  /** In a sorted tree the deletion's descent meets exactly the keys that are stored at their salary. */
  lemma {:induction false} FindsStored(t: Shape, key: Employee)
    requires Sorted(InOrder(t))
    ensures Finds(t, key) <==> Stores(InOrder(t), key)
    ensures Finds(t, key) ==> Removable(t, key) && Found(t, key).1 in InOrder(t) && SamePlace(Found(t, key).1.key, key)
  {
    if Finds(t, key) {
      FoundInOrder(t, key);
    }
    if Stores(InOrder(t), key) {
      StoredRemovable(t, key);
      DeleteKeeps(t, key);
    }
  }

  /** What a deletion keeps and what it takes out, on shapes, for any key. */
  lemma {:induction false} DeleteValid(t: Shape, key: Employee)
    requires Distinct(t) && Avl(t) && Sorted(InOrder(t))
    ensures var r := Delete(t, key);
            && Distinct(r) && Avl(r) && Sorted(InOrder(r)) && Nodes(r) <= Nodes(t)
            && Size(r) == Size(t) - (if Stores(InOrder(t), key) then 1 else 0)
            && InOrder(r) == RemoveKey(InOrder(t), key)
    ensures !Stores(InOrder(t), key) ==> Delete(t, key) == t
  {
    FindsStored(t, key);
    if Stores(InOrder(t), key) {
      DeleteKeeps(t, key);
      DeleteAvl(t, key);
      DeleteInOrder(t, key);
    } else {
      DeleteNothing(t, key);
      RemoveKeyNothing(InOrder(t), key);
    }
    RemoveKeySorted(InOrder(t), key);
  }

  /** What a removal leaves: the deletion's result if the search by identity meets the key, and the tree otherwise. */
  ghost function Removed(t: Shape, key: Employee): Shape {
    if Lookup(t, key).Nil? then t else Delete(t, key)
  }

  /** What a removal makes of a counter that was exact. */
  ghost function CounterAfter(t: Shape, key: Employee): int {
    if Lookup(t, key).Nil? then Size(t) else Size(t) - 1
  }

  /** The counter stays exact if and only if the search meets nothing or the key is stored at its salary. */
  lemma {:induction false} DeletionExact(t: Shape, key: Employee)
    requires Distinct(t) && Avl(t) && Sorted(InOrder(t))
    ensures CounterAfter(t, key) == Size(Removed(t, key)) <==> Lookup(t, key).Nil? || Stores(InOrder(t), key)
  {
    DeleteValid(t, key);
  }

  /** A tree with one employee: a key with the same id and another salary is met by the search, but not by the deletion. */
  lemma {:induction false} DeletionMissesOne(n: Tnode, e: Entry, key: Employee)
    requires e.key.id == key.id && e.key.salary != key.salary
    ensures var t := Bin(Nil, n, e, Nil);
            Lookup(t, key) == t && !Stores(InOrder(t), key) && Removed(t, key) == t && CounterAfter(t, key) == 0
  {
    var t := Bin(Nil, n, e, Nil);
    assert InOrder(t) == [e];
    DeleteValid(t, key);
  }
}
