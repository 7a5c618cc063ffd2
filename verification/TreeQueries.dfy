/** Sums over the in-order sequence, the order-statistics queries that walk the tree, and the merge of two trees. */
module TreeQueries {
  import opened Staff
  import opened TreeShape
  import opened TreeLaws
  import opened TreeLinks

  function Min(a: int, b: int): int {
    if a < b then a else b
  }

  // ----- sums -----

  lemma {:induction false} GradeSumAppend(a: seq<Entry>, b: seq<Entry>)
    ensures GradeSum(a + b) == GradeSum(a) + GradeSum(b)
  {
    if a == [] {
      assert a + b == b;
    } else {
      assert (a + b)[1..] == a[1..] + b;
      GradeSumAppend(a[1..], b);
    }
  }

  /** The cached size and sum are the length and the grade sum of the in-order sequence. */
  lemma {:induction false} SumIsGradeSum(t: Shape)
    ensures Sum(t) == GradeSum(InOrder(t)) && Size(t) == |InOrder(t)|
  {
    if t.Bin? {
      SumIsGradeSum(t.left);
      SumIsGradeSum(t.right);
      GradeSumAppend(InOrder(t.left) + [t.entry], InOrder(t.right));
      GradeSumAppend(InOrder(t.left), [t.entry]);
    }
  }

  // ----- the m largest -----

  /** The last `k` entries: in a sorted sequence, the `k` largest. */
  function Last(s: seq<Entry>, k: int): seq<Entry>
    requires 0 <= k <= |s|
  {
    s[|s| - k..]
  }

  lemma {:induction false} LastOfParts(a: seq<Entry>, x: Entry, b: seq<Entry>, k: int)
    requires 0 <= k <= |a| + 1 + |b|
    ensures GradeSum(Last(a + [x] + b, k)) ==
              if k <= |b| then GradeSum(Last(b, k)) else GradeSum(Last(a, k - |b| - 1)) + x.grade + GradeSum(b)
  {
    var s := a + [x] + b;
    if k <= |b| {
      assert Last(s, k) == Last(b, k);
    } else {
      assert Last(s, k) == Last(a, k - |b| - 1) + ([x] + b);
      GradeSumAppend(Last(a, k - |b| - 1), [x] + b);
      assert ([x] + b)[1..] == b;
    }
  }

  lemma LastNone(s: seq<Entry>)
    ensures GradeSum(Last(s, 0)) == 0
  {
  }

  lemma {:induction false} PartsOfRep(t: Shape, p: Tnode?)
    requires t.Bin? && Rep(t, p)
    ensures Rep(t.left, t.node) && Rep(t.right, t.node)
    ensures t.node.left == Root(t.left) && t.node.right == Root(t.right) && t.node.tGrade == t.entry.grade
    ensures t.right.Bin? ==> t.right.node.treeNodes == Size(t.right) && t.right.node.sumGrades == Sum(t.right)
    ensures t.right.Nil? ==> GradeSum(InOrder(t.right)) == 0
    ensures Size(t) == Size(t.left) + 1 + Size(t.right)
    ensures InOrder(t) == InOrder(t.left) + [t.entry] + InOrder(t.right)
  {
    assert Rep(t.left, t.node) && Rep(t.right, t.node);
  }

  /** Adds the grades of the largest entries of a subtree until `len` entries have been counted. */
  method SpecialInOrder(node: Tnode?, num: int, sum: int, len: int, ghost t: Shape, ghost p: Tnode?)
    returns (num': int, sum': int)
    requires node == Root(t) && Rep(t, p) && num <= len
    ensures |InOrder(t)| == Size(t)
    ensures num' == num + Min(len - num, Size(t))
    ensures sum' == sum + GradeSum(Last(InOrder(t), Min(len - num, Size(t))))
    decreases t
  {
    hide InOrder, Last, GradeSum, Height, Sum;
    SumIsGradeSum(t);
    LastNone(InOrder(t));
    num', sum' := num, sum;
    if node == null || num == len {
      return;
    }
    PartsOfRep(t, p);
    SumIsGradeSum(t.left);
    SumIsGradeSum(t.right);
    LastNone(InOrder(t.left));
    LastOfParts(InOrder(t.left), t.entry, InOrder(t.right), Min(len - num, Size(t)));
    if node.right != null {
      if num + node.right.treeNodes >= len {
        num', sum' := SpecialInOrder(node.right, num', sum', len, t.right, node);
      } else {
        sum' := sum' + node.right.sumGrades + node.tGrade;
        num' := num' + node.right.treeNodes + 1;
        if num' == len {
          return;
        }
        num', sum' := SpecialInOrder(node.left, num', sum', len, t.left, node);
      }
    } else {
      sum' := sum' + node.tGrade;
      num' := num' + 1;
      if num' == len {
        return;
      }
      num', sum' := SpecialInOrder(node.left, num', sum', len, t.left, node);
    }
  }

  // ----- salaries outside a range -----

  function Below(s: seq<Entry>, lower: int): seq<Entry> {
    if s == [] then [] else (if s[0].key.salary < lower then [s[0]] else []) + Below(s[1..], lower)
  }

  function Above(s: seq<Entry>, higher: int): seq<Entry> {
    if s == [] then [] else (if s[0].key.salary > higher then [s[0]] else []) + Above(s[1..], higher)
  }

  function Between(s: seq<Entry>, lower: int, higher: int): seq<Entry> {
    if s == [] then []
    else (if lower <= s[0].key.salary <= higher then [s[0]] else []) + Between(s[1..], lower, higher)
  }

  lemma {:induction false} BelowAppend(a: seq<Entry>, b: seq<Entry>, lower: int)
    ensures Below(a + b, lower) == Below(a, lower) + Below(b, lower)
  {
    if a == [] {
      assert a + b == b;
    } else {
      assert (a + b)[1..] == a[1..] + b;
      BelowAppend(a[1..], b, lower);
    }
  }

  lemma {:induction false} AboveAppend(a: seq<Entry>, b: seq<Entry>, higher: int)
    ensures Above(a + b, higher) == Above(a, higher) + Above(b, higher)
  {
    if a == [] {
      assert a + b == b;
    } else {
      assert (a + b)[1..] == a[1..] + b;
      AboveAppend(a[1..], b, higher);
    }
  }

  lemma {:induction false} BelowAll(s: seq<Entry>, lower: int)
    ensures (forall i :: 0 <= i < |s| ==> s[i].key.salary < lower) ==> Below(s, lower) == s
    ensures (forall i :: 0 <= i < |s| ==> s[i].key.salary >= lower) ==> Below(s, lower) == []
  {
    if s != [] { BelowAll(s[1..], lower); }
  }

  lemma {:induction false} AboveAll(s: seq<Entry>, higher: int)
    ensures (forall i :: 0 <= i < |s| ==> s[i].key.salary > higher) ==> Above(s, higher) == s
    ensures (forall i :: 0 <= i < |s| ==> s[i].key.salary <= higher) ==> Above(s, higher) == []
  {
    if s != [] { AboveAll(s[1..], higher); }
  }

  /** Taking both outsides away from the totals leaves exactly the entries in the range. */
  lemma {:induction false} RangeSplit(s: seq<Entry>, lower: int, higher: int)
    requires lower <= higher
    ensures |Between(s, lower, higher)| == |s| - |Below(s, lower)| - |Above(s, higher)|
    ensures GradeSum(Between(s, lower, higher)) == GradeSum(s) - GradeSum(Below(s, lower)) - GradeSum(Above(s, higher))
  {
    if s != [] {
      var x, rest := [s[0]], s[1..];
      RangeSplit(rest, lower, higher);
      GradeSumAppend(x, Between(rest, lower, higher));
      GradeSumAppend(x, Below(rest, lower));
      GradeSumAppend(x, Above(rest, higher));
      var none: seq<Entry> := [];
      assert x[1..] == none && none + Below(rest, lower) == Below(rest, lower);
      assert none + Above(rest, higher) == Above(rest, higher);
      assert none + Between(rest, lower, higher) == Between(rest, lower, higher);
    }
  }

  lemma {:induction false} BelowCut(a: seq<Entry>, x: Entry, b: seq<Entry>, lower: int)
    requires forall i :: 0 <= i < |a| ==> a[i].key.salary <= x.key.salary
    requires forall i :: 0 <= i < |b| ==> x.key.salary <= b[i].key.salary
    ensures Below(a + [x] + b, lower) == if x.key.salary >= lower then Below(a, lower) else a + [x] + Below(b, lower)
  {
    BelowAppend(a + [x], b, lower);
    BelowAppend(a, [x], lower);
    BelowAll([x], lower);
    if x.key.salary >= lower {
      BelowAll(b, lower);
    } else {
      BelowAll(a, lower);
    }
  }

  lemma {:induction false} AboveCut(a: seq<Entry>, x: Entry, b: seq<Entry>, higher: int)
    requires forall i :: 0 <= i < |a| ==> a[i].key.salary <= x.key.salary
    requires forall i :: 0 <= i < |b| ==> x.key.salary <= b[i].key.salary
    ensures Above(a + [x] + b, higher) == if x.key.salary <= higher then Above(b, higher) else Above(a, higher) + [x] + b
  {
    AboveAppend(a + [x], b, higher);
    AboveAppend(a, [x], higher);
    AboveAll([x], higher);
    if x.key.salary <= higher {
      AboveAll(a, higher);
    } else {
      AboveAll(b, higher);
    }
  }

  /** Every stored key carries the salary of its data. */
  ghost predicate SalariesAgree(t: Shape) {
    t.Bin? ==> t.entry.data.salary == t.entry.key.salary && SalariesAgree(t.left) && SalariesAgree(t.right)
  }

  /** What one step of the downward walk may take at once, in the sizes and sums that nodes cache. */
  lemma {:induction false} BelowAtRoot(t: Shape, lower: int)
    requires t.Bin? && Sorted(InOrder(t))
    ensures Sorted(InOrder(t.left)) && Sorted(InOrder(t.right))
    ensures t.entry.key.salary >= lower ==> Below(InOrder(t), lower) == Below(InOrder(t.left), lower)
    ensures t.entry.key.salary < lower ==>
              var rest := Below(InOrder(t.right), lower);
              && |Below(InOrder(t), lower)| == Size(t) - Size(t.right) + |rest|
              && GradeSum(Below(InOrder(t), lower)) == Sum(t) - Sum(t.right) + GradeSum(rest)
  {
    SortedParts(t);
    BelowCut(InOrder(t.left), t.entry, InOrder(t.right), lower);
    SumIsGradeSum(t.left);
    GradeSumAppend(InOrder(t.left) + [t.entry], Below(InOrder(t.right), lower));
    GradeSumAppend(InOrder(t.left), [t.entry]);
  }

  lemma {:induction false} AboveAtRoot(t: Shape, higher: int)
    requires t.Bin? && Sorted(InOrder(t))
    ensures Sorted(InOrder(t.left)) && Sorted(InOrder(t.right))
    ensures t.entry.key.salary <= higher ==> Above(InOrder(t), higher) == Above(InOrder(t.right), higher)
    ensures t.entry.key.salary > higher ==>
              var rest := Above(InOrder(t.left), higher);
              && |Above(InOrder(t), higher)| == Size(t) - Size(t.left) + |rest|
              && GradeSum(Above(InOrder(t), higher)) == Sum(t) - Sum(t.left) + GradeSum(rest)
  {
    SortedParts(t);
    AboveCut(InOrder(t.left), t.entry, InOrder(t.right), higher);
    SumIsGradeSum(t.right);
    GradeSumAppend(Above(InOrder(t.left), higher) + [t.entry], InOrder(t.right));
    GradeSumAppend(Above(InOrder(t.left), higher), [t.entry]);
  }

  /** Adds to `counter` and `sum` the employees paid less than `lower`, in one descent. */
  method AverageBumpEmpsLower(node: Tnode?, lower: int, counter: int, sum: int, ghost t: Shape, ghost p: Tnode?)
    returns (counter': int, sum': int)
    requires node == Root(t) && Rep(t, p) && Sorted(InOrder(t)) && SalariesAgree(t)
    ensures counter' == counter + |Below(InOrder(t), lower)|
    ensures sum' == sum + GradeSum(Below(InOrder(t), lower))
    decreases t
  {
    counter', sum' := counter, sum;
    if node == null {
      return;
    }
    assert Rep(t.left, node) && Rep(t.right, node);
    BelowAtRoot(t, lower);
    var salary := node.data.salary;
    if salary >= lower {
      counter', sum' := AverageBumpEmpsLower(node.left, lower, counter', sum', t.left, node);
    } else {
      sum' := sum' + node.sumGrades;
      counter' := counter' + node.treeNodes;
      if node.right != null {
        sum' := sum' - node.right.sumGrades;
        counter' := counter' - node.right.treeNodes;
        counter', sum' := AverageBumpEmpsLower(node.right, lower, counter', sum', t.right, node);
      }
    }
  }

  /** The mirror image: adds the employees paid more than `higher`. */
  method AverageBumpEmpsHigher(node: Tnode?, higher: int, counter: int, sum: int, ghost t: Shape, ghost p: Tnode?)
    returns (counter': int, sum': int)
    requires node == Root(t) && Rep(t, p) && Sorted(InOrder(t)) && SalariesAgree(t)
    ensures counter' == counter + |Above(InOrder(t), higher)|
    ensures sum' == sum + GradeSum(Above(InOrder(t), higher))
    decreases t
  {
    counter', sum' := counter, sum;
    if node == null {
      return;
    }
    assert Rep(t.left, node) && Rep(t.right, node);
    AboveAtRoot(t, higher);
    var salary := node.data.salary;
    if salary <= higher {
      counter', sum' := AverageBumpEmpsHigher(node.right, higher, counter', sum', t.right, node);
    } else {
      sum' := sum' + node.sumGrades;
      counter' := counter' + node.treeNodes;
      if node.left != null {
        sum' := sum' - node.left.sumGrades;
        counter' := counter' - node.left.treeNodes;
        counter', sum' := AverageBumpEmpsHigher(node.left, higher, counter', sum', t.left, node);
      }
    }
  }
}
