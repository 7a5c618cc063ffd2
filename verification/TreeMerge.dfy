/** Linear merge of two salary trees: flattening, merging, and what a mid-split rebuild looks like. */
module TreeMerge {
  import opened Staff
  import opened TreeShape
  import opened TreeLaws
  import opened TreeLinks
  import opened TreeQueries

  // ----- flattening -----

  /** A node together with what it carries. */
  datatype Item = Item(node: Tnode, entry: Entry)

  function Items(t: Shape): seq<Item> {
    if t.Nil? then [] else Items(t.left) + [Item(t.node, t.entry)] + Items(t.right)
  }

  function Entries(s: seq<Item>): seq<Entry> {
    seq(|s|, k requires 0 <= k < |s| => s[k].entry)
  }

  lemma {:induction false} ItemsInOrder(t: Shape)
    ensures |Items(t)| == Size(t) && Entries(Items(t)) == InOrder(t)
  {
    if t.Bin? {
      ItemsInOrder(t.left);
      ItemsInOrder(t.right);
    }
  }

  /** The nodes carry what the items say. */
  ghost predicate Carried(s: seq<Item>)
    reads set i | i in s :: i.node
  {
    forall k :: 0 <= k < |s| ==> s[k].node.key == s[k].entry.key && s[k].node.data == s[k].entry.data
  }

  lemma {:induction false} ItemsCarried(t: Shape, p: Tnode?)
    requires Rep(t, p)
    ensures Carried(Items(t))
  {
    if t.Bin? {
      assert Rep(t.left, t.node) && Rep(t.right, t.node);
      ItemsCarried(t.left, t.node);
      ItemsCarried(t.right, t.node);
    }
  }

  /** The first cells of the array are the nodes of `s`. */
  ghost predicate Holds(ns: array<Tnode?>, s: seq<Item>)
    reads ns
  {
    |s| <= ns.Length && forall k :: 0 <= k < |s| ==> ns[k] == s[k].node
  }

  /** The cells from `i` to `j` have become the nodes of the first items; the others are as they were. */
  ghost predicate Wrote(now: seq<Tnode?>, was: seq<Tnode?>, items: seq<Item>, i: int, j: int) {
    && 0 <= i <= j <= |now| == |was| && j - i <= |items|
    && (forall k :: i <= k < j ==> now[k] == items[k - i].node)
    && (forall k :: 0 <= k < |now| && (k < i || j <= k) ==> now[k] == was[k])
  }

  /** Two stretches in a row, the second of which is empty unless the first is complete. */
  lemma {:induction false} WroteBoth(end: seq<Tnode?>, mid: seq<Tnode?>, was: seq<Tnode?>,
                                     l: seq<Item>, r: seq<Item>, i: int, j: int, m: int)
    requires Wrote(mid, was, l, i, j) && Wrote(end, mid, r, j, m) && (j == i + |l| || m == j)
    ensures Wrote(end, was, l + r, i, m)
  {
    forall k | i <= k < m
      ensures end[k] == (l + r)[k - i].node
    {
    }
  }

  /** Writes the nodes of a subtree in order, from index `i`, as long as fewer than `len` have been written. */
  method InOrderFill(node: Tnode?, nodes: array<Tnode?>, i: int, len: int, ghost t: Shape, ghost p: Tnode?)
    returns (j: int)
    requires node == Root(t) && Rep(t, p) && 0 <= i <= len <= nodes.Length
    modifies nodes
    ensures |Items(t)| == Size(t) && j == Min(len, i + Size(t))
    ensures Wrote(nodes[..], old(nodes[..]), Items(t), i, j)
    decreases t
  {
    ItemsInOrder(t);
    j := i;
    if node != null && i < len {
      assert Rep(t.left, node) && Rep(t.right, node);
      NodesAllocated(t.right);
      ghost var was, l, x, r := nodes[..], Items(t.left), [Item(node, t.entry)], Items(t.right);
      j := InOrderFill(node.left, nodes, j, len, t.left, node);
      ghost var mid, at := nodes[..], j;
      if j < len {
        nodes[j] := node;
        j := j + 1;
      }
      assert Wrote(nodes[..], mid, x, at, j);
      WroteBoth(nodes[..], mid, was, l, x, i, at, j);
      mid, at := nodes[..], j;
      assert Rep(t.right, node);
      j := InOrderFill(node.right, nodes, j, len, t.right, node);
      WroteBoth(nodes[..], mid, was, l + x, r, i, at, j);
    }
  }

  // ----- merging -----

  function MergeEntries(a: seq<Entry>, b: seq<Entry>): seq<Entry> {
    if a == [] then b
    else if b == [] then a
    else if Less(a[0].key, b[0].key) then [a[0]] + MergeEntries(a[1..], b)
    else [b[0]] + MergeEntries(a, b[1..])
  }

  /** No employee of `a` stands at the place of one of `b`. */
  ghost predicate Apart(a: seq<Entry>, b: seq<Entry>) {
    forall i, j :: 0 <= i < |a| && 0 <= j < |b| ==> !SamePlace(a[i].key, b[j].key)
  }

  lemma {:induction false} MergeAbove(a: seq<Entry>, b: seq<Entry>, low: Employee)
    requires forall i :: 0 <= i < |a| ==> Less(low, a[i].key)
    requires forall i :: 0 <= i < |b| ==> Less(low, b[i].key)
    ensures forall i :: 0 <= i < |MergeEntries(a, b)| ==> Less(low, MergeEntries(a, b)[i].key)
    decreases |a| + |b|
  {
    if a != [] && b != [] {
      if Less(a[0].key, b[0].key) {
        MergeAbove(a[1..], b, low);
      } else {
        MergeAbove(a, b[1..], low);
      }
    }
  }

  /** The merge loses and invents nothing. */
  lemma {:induction false} MergeKeepsAll(a: seq<Entry>, b: seq<Entry>)
    ensures multiset(MergeEntries(a, b)) == multiset(a) + multiset(b)
    decreases |a| + |b|
  {
    if a != [] && b != [] {
      assert a == [a[0]] + a[1..] && b == [b[0]] + b[1..];
      if Less(a[0].key, b[0].key) {
        MergeKeepsAll(a[1..], b);
      } else {
        MergeKeepsAll(a, b[1..]);
      }
    }
  }

  lemma {:induction false} SortedFronts(a: seq<Entry>, b: seq<Entry>)
    requires a != [] && b != [] && Sorted(MergeEntries(a, b)) && !Less(a[0].key, b[0].key)
    ensures Less(b[0].key, a[0].key)
  {
    var m := MergeEntries(a, b);
    MergeKeepsAll(a, b[1..]);
    assert a[0] in multiset(MergeEntries(a, b[1..]));
    var k :| 0 <= k < |m[1..]| && m[1..][k] == a[0];
    assert m[0] == b[0] && m[k + 1] == a[0];
  }

  /** Two entries at one place stay two entries at one place, so the merge is not strictly sorted then. */
  lemma {:induction false} SortedApart(a: seq<Entry>, b: seq<Entry>)
    requires Sorted(a) && Sorted(b) && Sorted(MergeEntries(a, b))
    ensures Apart(a, b)
    decreases |a| + |b|
  {
    if a != [] && b != [] {
      var m := MergeEntries(a, b);
      if Less(a[0].key, b[0].key) {
        assert MergeEntries(a[1..], b) == m[1..];
        SortedApart(a[1..], b);
        assert forall i :: 0 < i < |a| ==> a[i] == a[1..][i - 1];
      } else {
        assert MergeEntries(a, b[1..]) == m[1..];
        SortedApart(a, b[1..]);
        assert forall j :: 0 < j < |b| ==> b[j] == b[1..][j - 1];
        SortedFronts(a, b);
      }
    }
  }

  /** The merge of sorted sequences is sorted exactly when they have no common place. */
  lemma {:induction false} MergeSorted(a: seq<Entry>, b: seq<Entry>)
    requires Sorted(a) && Sorted(b)
    ensures Sorted(MergeEntries(a, b)) <==> Apart(a, b)
    decreases |a| + |b|
  {
    if Sorted(MergeEntries(a, b)) {
      SortedApart(a, b);
    } else if a != [] && b != [] && Apart(a, b) {
      assert !SamePlace(a[0].key, b[0].key);
      if Less(a[0].key, b[0].key) {
        MergeSorted(a[1..], b);
        MergeAbove(a[1..], b, a[0].key);
      } else {
        MergeSorted(a, b[1..]);
        MergeAbove(a, b[1..], b[0].key);
      }
    }
  }

  /** The same merge on nodes. */
  function MergeItems(a: seq<Item>, b: seq<Item>): (r: seq<Item>)
    ensures |r| == |a| + |b|
  {
    if a == [] then b
    else if b == [] then a
    else if Less(a[0].entry.key, b[0].entry.key) then [a[0]] + MergeItems(a[1..], b)
    else [b[0]] + MergeItems(a, b[1..])
  }

  lemma {:induction false} MergeItemsEntries(a: seq<Item>, b: seq<Item>)
    ensures Entries(MergeItems(a, b)) == MergeEntries(Entries(a), Entries(b))
    decreases |a| + |b|
  {
    if a != [] && b != [] {
      assert Entries(a)[1..] == Entries(a[1..]) && Entries(b)[1..] == Entries(b[1..]);
      if Less(a[0].entry.key, b[0].entry.key) {
        MergeItemsEntries(a[1..], b);
      } else {
        MergeItemsEntries(a, b[1..]);
      }
    }
  }

  lemma {:induction false} MergeItemsCarried(a: seq<Item>, b: seq<Item>)
    requires Carried(a) && Carried(b)
    ensures Carried(MergeItems(a, b))
    decreases |a| + |b|
  {
    if a != [] && b != [] {
      if Less(a[0].entry.key, b[0].entry.key) {
        MergeItemsCarried(a[1..], b);
      } else {
        MergeItemsCarried(a, b[1..]);
      }
    }
  }

  lemma {:induction false} MergeStep(a: seq<Item>, b: seq<Item>, t1: nat, t2: nat, full: seq<Item>)
    requires t1 < |a| && t2 < |b| && t1 + t2 < |full| && MergeItems(a[t1..], b[t2..]) == full[t1 + t2..]
    ensures if Less(a[t1].entry.key, b[t2].entry.key)
            then full[t1 + t2] == a[t1] && MergeItems(a[t1 + 1..], b[t2..]) == full[t1 + t2 + 1..]
            else full[t1 + t2] == b[t2] && MergeItems(a[t1..], b[t2 + 1..]) == full[t1 + t2 + 1..]
  {
    assert a[t1..][1..] == a[t1 + 1..] && b[t2..][1..] == b[t2 + 1..];
    assert full[t1 + t2..][1..] == full[t1 + t2 + 1..] && full[t1 + t2..][0] == full[t1 + t2];
  }

  /** The first `n` cells of the array are the nodes of the first `n` items. */
  ghost predicate Begun(ns: array<Tnode?>, s: seq<Item>, n: int)
    requires n <= |s| && n <= ns.Length
    reads ns
  {
    forall k :: 0 <= k < n ==> ns[k] == s[k].node
  }

  /** Copies the rest of one array behind what has been merged so far; `full` says what is to come out. */
  method CopyRest(tree: array<Tnode?>, from: int, mergedTree: array<Tnode?>, start: int,
                  ghost s: seq<Item>, ghost full: seq<Item>)
    requires tree != mergedTree && Holds(tree, s) && |s| == tree.Length && |full| == mergedTree.Length
    requires 0 <= from <= |s| && 0 <= start && start + |s| - from <= |full|
    requires Begun(mergedTree, full, start)
    requires forall k :: start <= k < start + |s| - from ==> full[k] == s[from + k - start]
    modifies mergedTree
    ensures Begun(mergedTree, full, start + |s| - from)
  {
    var t, mt := from, start;
    while t < tree.Length
      invariant from <= t <= tree.Length && mt == start + t - from
      invariant Begun(mergedTree, full, mt)
    {
      assert full[mt] == s[t];
      mergedTree[mt] := tree[t];
      t := t + 1;
      mt := mt + 1;
    }
  }

  /** Takes the smaller front node until one array is exhausted. */
  method MergeFronts(tree1: array<Tnode?>, tree2: array<Tnode?>, mergedTree: array<Tnode?>,
                     ghost a: seq<Item>, ghost b: seq<Item>)
    returns (t1: int, t2: int)
    requires Holds(tree1, a) && |a| == tree1.Length && Holds(tree2, b) && |b| == tree2.Length
    requires Carried(a) && Carried(b)
    requires mergedTree != tree1 && mergedTree != tree2 && mergedTree.Length == |a| + |b|
    modifies mergedTree
    ensures 0 <= t1 <= |a| && 0 <= t2 <= |b| && (t1 == |a| || t2 == |b|)
    ensures var full := MergeItems(a, b);
            && MergeItems(a[t1..], b[t2..]) == full[t1 + t2..]
            && Begun(mergedTree, full, t1 + t2)
  {
    hide MergeItems;
    ghost var full := MergeItems(a, b);
    t1, t2 := 0, 0;
    var mt := 0;
    while t1 < tree1.Length && t2 < tree2.Length
      invariant 0 <= t1 <= tree1.Length && 0 <= t2 <= tree2.Length && mt == t1 + t2
      invariant MergeItems(a[t1..], b[t2..]) == full[mt..]
      invariant Begun(mergedTree, full, mt)
      decreases tree1.Length + tree2.Length - mt
    {
      MergeStep(a, b, t1, t2, full);
      assert a[t1].node.key == a[t1].entry.key && b[t2].node.key == b[t2].entry.key;
      if Less(tree1[t1].key, tree2[t2].key) {
        mergedTree[mt] := tree1[t1];
        t1 := t1 + 1;
      } else {
        mergedTree[mt] := tree2[t2];
        t2 := t2 + 1;
      }
      mt := mt + 1;
      assert mergedTree[mt - 1] == full[mt - 1].node;
    }
  }

  method MergeArrays(tree1: array<Tnode?>, tree2: array<Tnode?>, ghost a: seq<Item>, ghost b: seq<Item>)
    returns (mergedTree: array<Tnode?>)
    requires Holds(tree1, a) && |a| == tree1.Length && Holds(tree2, b) && |b| == tree2.Length
    requires Carried(a) && Carried(b)
    ensures fresh(mergedTree) && mergedTree.Length == |a| + |b|
    ensures Holds(mergedTree, MergeItems(a, b))
  {
    hide MergeItems;
    ghost var full := MergeItems(a, b);
    mergedTree := new Tnode?[tree1.Length + tree2.Length](_ => null);
    var t1, t2 := MergeFronts(tree1, tree2, mergedTree, a, b);
    MergeTails(a, b, t1, t2, full);
    CopyRest(tree1, t1, mergedTree, t1 + t2, a, full);
    CopyRest(tree2, t2, mergedTree, t2 + tree1.Length, b, full);
  }

  /** Once one side is exhausted, the other side's rest is all that is left to merge. */
  lemma {:induction false} MergeTails(a: seq<Item>, b: seq<Item>, t1: nat, t2: nat, full: seq<Item>)
    requires t1 <= |a| && t2 <= |b| && (t1 == |a| || t2 == |b|) && |full| == |a| + |b|
    requires MergeItems(a[t1..], b[t2..]) == full[t1 + t2..]
    ensures forall k :: t1 + t2 <= k < |a| + t2 ==> full[k] == a[k - t2]
    ensures forall k :: |a| + t2 <= k < |full| ==> full[k] == b[k - |a|]
  {
    assert forall k :: t1 + t2 <= k < |full| ==> full[k] == full[t1 + t2..][k - t1 - t2];
    if t1 == |a| {
      assert MergeItems(a[t1..], b[t2..]) == b[t2..];
    } else {
      assert MergeItems(a[t1..], b[t2..]) == a[t1..];
    }
  }

  // ----- rebuilding -----

  /** The copy of an entry that a rebuilt node carries: its grade is read from the data again. */
  function Copy(e: Entry): Entry {
    Entry(e.key, e.data, e.data.grade)
  }

  function Copies(s: seq<Entry>): seq<Entry> {
    if s == [] then [] else [Copy(s[0])] + Copies(s[1..])
  }

  lemma {:induction false} CopiesAt(s: seq<Entry>)
    ensures |Copies(s)| == |s| && forall k :: 0 <= k < |s| ==> Copies(s)[k] == Copy(s[k])
  {
    if s != [] { CopiesAt(s[1..]); }
  }

  /** Where every stored grade is the grade of its data, a rebuild copies the entries exactly. */
  lemma {:induction false} CopiesExact(s: seq<Entry>)
    requires forall k :: 0 <= k < |s| ==> s[k].grade == s[k].data.grade
    ensures Copies(s) == s
  {
    CopiesAt(s);
  }

  lemma {:induction false} CopiesSorted(s: seq<Entry>)
    ensures Sorted(Copies(s)) <==> Sorted(s)
  {
    CopiesAt(s);
    if Sorted(Copies(s)) {
      forall i, j | 0 <= i < j < |s|
        ensures Less(s[i].key, s[j].key)
      {
        assert Less(Copies(s)[i].key, Copies(s)[j].key);
      }
    }
  }

  /** At every node the right half has as many nodes as the left, or one more. */
  ghost predicate Even(t: Shape) {
    t.Bin? ==> Even(t.left) && Even(t.right) && Size(t.left) <= Size(t.right) <= Size(t.left) + 1
  }

  /** One node more costs at most one level. */
  lemma {:induction false} EvenLevels(a: Shape, b: Shape)
    requires Even(a) && Even(b) && Size(a) <= Size(b) <= Size(a) + 1
    ensures Height(a) <= Height(b) <= Height(a) + 1
  {
    if a.Bin? {
      EvenLevels(a.left, b.left);
      EvenLevels(a.right, b.right);
    }
  }

  /** A mid-split build is balanced at every node, so nothing is left for a rotation to do. */
  lemma {:induction false} EvenAvl(t: Shape)
    requires Even(t)
    ensures Avl(t)
  {
    if t.Bin? {
      EvenAvl(t.left);
      EvenAvl(t.right);
      EvenLevels(t.left, t.right);
    }
  }
}
