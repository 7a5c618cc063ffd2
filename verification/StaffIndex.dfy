/**
 * The indexes of one group of employees: a hash table by id, a salary tree of those with a salary, and the count
 * and grade sum of those without. A company has such indexes, and so has the whole system.
 */
module StaffIndex {
  import opened Staff
  import opened TreeShape
  import opened TreeLinks
  import opened TreeQueries
  import opened TreeMerge
  import opened TreeBump
  import opened RankedTree
  import HashTable
  import opened Tally
  import opened Roster

  type Table = HashTable.HashTable<Employee>

  /** A table that has not been made yet holds nobody. */
  ghost predicate TableOk(h: HashTable.HashTable?<Employee>, m: Roll)
    reads h, if h == null then {} else {h.arr}, if h == null then {} else h.items
  {
    if h == null then m == map[] else h.Valid() && h.contents == m
  }

  ghost predicate TreeOk(t: Tree?, m: Roll)
    reads t, if t == null then {} else Nodes(t.shape)
  {
    if t == null then forall x :: !IsPaid(m, x) else t.Valid() && TreeHolds(t.Contents(), m)
  }

  /** The table may have new items and a new array. */
  twostate predicate TableGrew(h: Table)
    reads h
  {
    fresh(h.items - old(h.items)) && (h.arr == old(h.arr) || fresh(h.arr))
  }

  /** Array and items of a table are the same. */
  twostate predicate TableSame(g: HashTable.HashTable?<Employee>)
    reads g
  {
    g != null ==> g.arr == old(g.arr) && g.items == old(g.items)
  }

  /** The table is the same, or new if there was none. */
  twostate predicate TableFrom(h: HashTable.HashTable?<Employee>, new k: HashTable.HashTable?<Employee>)
    reads k
  {
    if h == null then k == null || (fresh(k) && fresh(k.arr) && fresh(k.items)) else k == h && TableGrew(k)
  }

  ghost function TreeNodes(t: Tree?): set<Tnode>
    reads t
  {
    if t == null then {} else Nodes(t.shape)
  }

  // ----- one index at a time; the other is not touched -----

  lemma TreeAllocated(t: Tree?)
    ensures t != null ==> forall n :: n in Nodes(t.shape) ==> allocated(n)
  {
    if t != null {
      NodesAllocated(t.shape);
    }
  }

  method AddToTable(h: Table, e: Employee, ghost m: Roll, ghost t: Tree?, ghost paid: Roll) returns (res: Status)
    requires TableOk(h, m) && e.id > 0 && TreeOk(t, paid)
    modifies h, h.arr, h.items
    ensures TableGrew(h)
    ensures res == if e.id in m then FAILURE else SUCCESS
    ensures TableOk(h, if e.id in m then m else m[e.id := e]) && TreeOk(t, paid)
  {
    TreeAllocated(t);
    res := h.Insert(e.id, e);
  }

  method RemoveFromTable(h: Table, id: int, ghost m: Roll, ghost t: Tree?, ghost paid: Roll)
    requires TableOk(h, m) && id > 0 && id in m && TreeOk(t, paid)
    modifies h, h.arr, h.items
    ensures TableGrew(h)
    ensures TableOk(h, m - {id}) && TreeOk(t, paid) && TreeNodes(t) == old(TreeNodes(t))
  {
    TreeAllocated(t);
    var _ := h.Remove(id);
  }

  method UpdateTable(h: Table, e: Employee, ghost m: Roll, ghost t: Tree?, ghost paid: Roll)
    requires TableOk(h, m) && e.id in m && TreeOk(t, paid)
    modifies h`contents, h.items
    ensures TableOk(h, m[e.id := e]) && TreeOk(t, paid)
  {
    TreeAllocated(t);
    h.Update(e.id, e);
  }

  method AddToTree(t: Tree, e: Employee, ghost m: Roll, ghost h: HashTable.HashTable?<Employee>, ghost listed: Roll)
    returns (ghost born: set<Tnode>)
    requires TreeOk(t, m) && WellKept(m) && !IsPaid(m, e.id) && e.salary > 0 && TableOk(h, listed)
    modifies t, Nodes(t.shape)
    ensures fresh(born) && Nodes(t.shape) <= old(Nodes(t.shape)) + born
    ensures TreeOk(t, m[e.id := e]) && TableOk(h, listed)
  {
    TreeAllocated(t);
    LookupRoll(t.shape, m, e);
    TreeAfterInsert(t.Contents(), m, e);
    ghost var nodes := Nodes(t.shape);
    var _ := t.InsertKey(e, e, e.grade);
    born := Nodes(t.shape) - nodes;
  }

  method RemoveFromTree(t: Tree, e: Employee, ghost m: Roll, ghost h: HashTable.HashTable?<Employee>, ghost listed: Roll)
    requires TreeOk(t, m) && WellKept(m) && IsPaid(m, e.id) && m[e.id] == e && TableOk(h, listed)
    modifies t, Nodes(t.shape)
    ensures Nodes(t.shape) <= old(Nodes(t.shape))
    ensures TreeOk(t, m - {e.id}) && TableOk(h, listed)
  {
    TreeAllocated(t);
    LookupRoll(t.shape, m, e);
    TreeAfterRemove(t.Contents(), m, e.id);
    StoredRoll(t.Contents(), m, e);
    var _ := t.Remove(e, e.grade);
  }

  method BumpInTree(t: Tree, e: Employee, newGrade: int, bumpGrade: int, ghost m: Roll,
                    ghost h: HashTable.HashTable?<Employee>, ghost listed: Roll)
    requires TreeOk(t, m) && WellKept(m) && IsPaid(m, e.id) && SamePlace(e, m[e.id]) && TableOk(h, listed)
    requires newGrade == m[e.id].grade + bumpGrade
    modifies t`shape, Nodes(t.shape)
    ensures Nodes(t.shape) == old(Nodes(t.shape))
    ensures TreeOk(t, m[e.id := m[e.id].(grade := newGrade)]) && TableOk(h, listed)
  {
    TreeAllocated(t);
    LookupSamePlace(t.shape, e, m[e.id]);
    LookupRoll(t.shape, m, m[e.id]);
    LookupEntry(t.shape, e);
    TreeAfterBump(t.Contents(), m, e.id, newGrade);
    var enode := t.SearchAssist(e);
    EntryOfRep(t.shape, null, enode);
    t.BumpNode(enode, newGrade, bumpGrade);
  }

  /** Someone without a salary joins, leaves or changes: the tree is as it should be. */
  lemma {:induction false} TreeKept(t: Tree?, before: Roll, after: Roll, x: int)
    requires TreeOk(t, before) && !IsPaid(before, x) && !IsPaid(after, x) && before - {x} == after - {x}
    ensures TreeOk(t, after)
  {
    forall y
      ensures IsPaid(after, y) <==> IsPaid(before, y)
      ensures IsPaid(after, y) ==> after[y] == before[y]
    {
      assert y != x ==> (y in before <==> y in before - {x}) && (y in after <==> y in after - {x});
      if y != x && y in before {
        assert before[y] == (before - {x})[y] == (after - {x})[y] == after[y];
      }
    }
    if t != null {
      TreeWithoutUnpaid(t.Contents(), before, after);
    }
  }

  /** Someone leaves the tree, if there. */
  method TakeOutOfTree(t: Tree?, e: Employee, ghost m: Roll, ghost h: Table)
    requires TableOk(h, m) && TreeOk(t, m) && WellKept(m) && e.id in m && m[e.id] == e
    modifies t, if t == null then {} else Nodes(t.shape)
    ensures TableOk(h, m) && TreeOk(t, m - {e.id}) && TreeNodes(t) <= old(TreeNodes(t))
  {
    if e.salary > 0 {
      assert IsPaid(m, e.id);
      RemoveFromTree(t, e, m, h, m);
    } else {
      TreeKept(t, m, m - {e.id}, e.id);
    }
  }

  /** Someone leaves the tree and the table. */
  method TakeOut(t: Tree?, h: Table, e: Employee, ghost m: Roll)
    requires TableOk(h, m) && TreeOk(t, m) && WellKept(m) && e.id in m && m[e.id] == e
    modifies h, h.arr, h.items, t, if t == null then {} else Nodes(t.shape)
    ensures TableOk(h, m - {e.id}) && TreeOk(t, m - {e.id})
    ensures TableGrew(h)
    ensures TreeNodes(t) <= old(TreeNodes(t))
  {
    TakeOutOfTree(t, e, m, h);
    RemoveFromTable(h, e.id, m, t, m - {e.id});
  }

  // ----- the counters, which stop at zero -----

  function DecreasedEmps(num: int): int {
    if num - 1 < 0 then 0 else num - 1
  }

  function DecreasedGrades(sum: int, grades: int): int {
    if sum - grades < 0 then 0 else sum - grades
  }

  /** One employee fewer: those without a salary are discounted. */
  function Discount(num: int, sum: int, e: Employee): Totals {
    if e.salary == 0 then Totals(DecreasedEmps(num), DecreasedGrades(sum, e.grade)) else Totals(num, sum)
  }

  /** The counters never have to be stopped. */
  lemma {:induction false} Discounted(num: int, sum: int, e: Employee, m: Roll)
    requires Totals(num, sum) == Zeros(m) && WellKept(m) && e.id in m && m[e.id] == e
    ensures Discount(num, sum, e) == Zeros(m - {e.id})
    ensures e.salary == 0 ==> Discount(num, sum, e) == Totals(num - 1, sum - e.grade)
  {
    ZerosSplit(m, e.id);
    ZerosNatural(m - {e.id});
  }

  lemma {:induction false} KeptWithout(m: Roll, x: int)
    requires WellKept(m)
    ensures WellKept(m - {x})
  {
  }

  /** One employee without a salary more. */
  lemma {:induction false} Counted(m: Roll, e: Employee)
    requires e.id !in m && e.salary == 0
    ensures Zeros(m[e.id := e]) == Plus(Totals(1, e.grade), Zeros(m)) && m - {e.id} == m[e.id := e] - {e.id} == m
  {
    assert m - {e.id} == m;
    UpdateWithout(m, e.id, e);
    ZerosUpdate(m, e.id, e);
  }

  /** Someone joins the table; without a salary, the tree need not know. */
  method PutIn(t: Tree?, h: Table, e: Employee, ghost m: Roll) returns (res: Status)
    requires TableOk(h, m) && TreeOk(t, m) && e.id > 0 && e.salary == 0
    modifies h, h.arr, h.items
    ensures TableGrew(h)
    ensures res == if e.id in m then FAILURE else SUCCESS
    ensures var after := if e.id in m then m else m[e.id := e]; TableOk(h, after) && TreeOk(t, after)
  {
    ghost var after := if e.id in m then m else m[e.id := e];
    if e.id !in m {
      Counted(m, e);
      TreeKept(t, m, after, e.id);
    }
    res := AddToTable(h, e, m, t, after);
  }

  lemma {:induction false} UpdateAgain<K, V>(m: map<K, V>, k: K, v: V)
    ensures (m - {k})[k := v] == m[k := v] && m[k := v] - {k} == m - {k}
  {
  }

  /** Someone is paid more: in the tree the old entry goes and a new one comes; in the table the pair changes. */
  method Repay(t: Tree, h: Table, e: Employee, raised: Employee, ghost m: Roll) returns (ghost born: set<Tnode>)
    requires TableOk(h, m) && TreeOk(t, m) && WellKept(m) && e.id in m && m[e.id] == e
    requires raised.id == e.id && raised.salary > e.salary
    modifies h`contents, h.items, t, Nodes(t.shape)
    ensures TableOk(h, m[e.id := raised]) && TreeOk(t, m[e.id := raised])
    ensures fresh(born) && Nodes(t.shape) <= old(Nodes(t.shape)) + born
  {
    ghost var after := m[e.id := raised];
    if e.salary == 0 {
      born := AddToTree(t, raised, m, h, m);
    } else {
      born := Replace(t, h, e, raised, m);
    }
    TreeAllocated(t);
    UpdateTable(h, raised, m, t, after);
  }

  method Replace(t: Tree, h: Table, e: Employee, raised: Employee, ghost m: Roll) returns (ghost born: set<Tnode>)
    requires TableOk(h, m) && TreeOk(t, m) && WellKept(m) && IsPaid(m, e.id) && m[e.id] == e
    requires raised.id == e.id && raised.salary > e.salary
    modifies t, Nodes(t.shape)
    ensures TableOk(h, m) && TreeOk(t, m[e.id := raised])
    ensures fresh(born) && Nodes(t.shape) <= old(Nodes(t.shape)) + born
  {
    ghost var rest := m - {e.id};
    RemoveFromTree(t, e, m, h, m);
    assert !IsPaid(rest, e.id) && WellKept(rest);
    UpdateAgain(m, e.id, raised);
    born := AddToTree(t, raised, rest, h, m);
  }

  /** The counters when someone gets a salary, or a higher one. */
  lemma {:induction false} RaisedCount(num: int, sum: int, e: Employee, raised: Employee, m: Roll)
    requires Totals(num, sum) == Zeros(m) && WellKept(m) && e.id in m && m[e.id] == e
    requires raised.id == e.id && raised.salary > 0
    ensures Discount(num, sum, e) == Zeros(m[e.id := raised])
  {
    Discounted(num, sum, e, m);
    ZerosUpdate(m, e.id, raised);
  }

  /** Someone is promoted: the pair in the table changes, and so does the node in the tree, if there is one. */
  method Reward(t: Tree?, h: Table, e: Employee, bumpGrade: int, ghost m: Roll)
    requires TableOk(h, m) && TreeOk(t, m) && WellKept(m) && e.id in m && m[e.id] == e
    modifies h`contents, h.items, t, if t == null then {} else Nodes(t.shape)
    ensures var after := m[e.id := Promoted(e, bumpGrade)]; TableOk(h, after) && TreeOk(t, after)
    ensures TreeNodes(t) == old(TreeNodes(t))
  {
    var promoted := Promoted(e, bumpGrade);
    ghost var after := m[e.id := promoted];
    TreeAllocated(t);
    UpdateTable(h, promoted, m, t, m);
    if e.salary > 0 {
      assert IsPaid(m, e.id);
      BumpInTree(t, promoted, promoted.grade, bumpGrade, m, h, after);
    } else {
      UpdateAgain(m, e.id, promoted);
      TreeKept(t, m, after, e.id);
    }
  }

  /** The counters when someone is promoted. */
  lemma {:induction false} PromotedCount(num: int, sum: int, e: Employee, bumpGrade: int, m: Roll)
    requires Totals(num, sum) == Zeros(m) && e.id in m && m[e.id] == e
    ensures Totals(num, if e.salary == 0 then sum + bumpGrade else sum) == Zeros(m[e.id := Promoted(e, bumpGrade)])
  {
    var p := Promoted(e, bumpGrade);
    assert p.id == e.id && p.salary == e.salary && p.grade == e.grade + bumpGrade;
    ZerosSplit(m, e.id);
    ZerosUpdate(m, e.id, p);
  }

  lemma {:induction false} PromotedKept(e: Employee, bumpGrade: int, m: Roll)
    requires e.id in m && m[e.id] == e && WellKept(m) && bumpGrade > 0
    ensures WellKept(m[e.id := Promoted(e, bumpGrade)])
  {
  }

  /** A group without paid employees changes nothing in the tree of another. */
  lemma {:induction false} TreeOfBoth(t: Tree?, paid: Roll, unpaid: Roll, both: Roll)
    requires TreeOk(t, paid) && paid.Keys !! unpaid.Keys && forall x :: !IsPaid(unpaid, x)
    requires both == paid + unpaid || both == unpaid + paid
    ensures TreeOk(t, both)
  {
    forall x
      ensures IsPaid(both, x) <==> IsPaid(paid, x)
      ensures IsPaid(both, x) ==> both[x] == paid[x]
    {
      assert !IsPaid(unpaid, x);
    }
    if t != null {
      TreeWithoutUnpaid(t.Contents(), paid, both);
    }
  }

  /** The tree of two groups together: the only one there is, or a merge of both. */
  method JoinTrees(t: Tree?, u: Tree?, ghost h: HashTable.HashTable?<Employee>, ghost g: HashTable.HashTable?<Employee>,
                   ghost a: Roll, ghost b: Roll) returns (r: Tree?, ghost born: set<Tnode>)
    requires TreeOk(t, a) && TreeOk(u, b) && a.Keys !! b.Keys && (t != null ==> t != u)
    requires TableOk(h, a) && TableOk(g, b)
    modifies t
    ensures TreeOk(r, a + b) && fresh(born) && TableOk(h, a) && TableOk(g, b) && TableSame(g)
    ensures r == null || r == t || r == u || fresh(r)
    ensures TreeNodes(r) <= born + old(TreeNodes(t)) + old(TreeNodes(u))
    ensures u == null ==> r == t
    ensures t == null ==> r == u
    ensures t != null && u != null ==> r != t && r != u
  {
    born := {};
    if u == null {
      TreeOfBoth(t, a, b, a + b);
      r := t;
    } else if t == null {
      TreeOfBoth(u, b, a, a + b);
      r := u;
    } else {
      TreeAfterMerge(t.Contents(), u.Contents(), a, b);
      r := t.MergeTree(u);
      born := Nodes(r.shape);
    }
  }

  /** Two tables into one: the first takes copies of all pairs of the second. */
  method JoinTables(h: Table, g: Table, ghost a: Roll, ghost b: Roll)
    requires TableOk(h, a) && TableOk(g, b) && a.Keys !! b.Keys
    requires h != g && h.arr != g.arr && h.items !! g.items
    modifies h, h.arr, h.items
    ensures TableOk(h, a + b) && TableGrew(h)
    ensures TableOk(g, b) && TableSame(g)
  {
    var _ := h.MergeHTs(g);
    assert b + a == a + b;
  }

  /** The same while a tree is looked after. */
  method JoinTablesBeside(h: Table, g: Table, ghost a: Roll, ghost b: Roll, ghost t: Tree?)
    requires TableOk(h, a) && TableOk(g, b) && a.Keys !! b.Keys && TreeOk(t, a + b) && TablesApart(h, g)
    modifies h, h.arr, h.items
    ensures TableOk(h, a + b) && TreeOk(t, a + b) && TableOk(g, b) && TableSame(g) && TreeNodes(t) == old(TreeNodes(t))
    ensures TableGrew(h)
  {
    TreeAllocated(t);
    JoinTables(h, g, a, b);
  }

  /** The first group had no table yet. */
  method NewTableBeside(g: Table, ghost b: Roll, ghost t: Tree?) returns (k: Table)
    requires TableOk(g, b) && TreeOk(t, b)
    ensures TableOk(k, b) && TreeOk(t, b) && TableOk(g, b) && TableSame(g) && fresh(k) && fresh(k.arr) && fresh(k.items)
  {
    TreeAllocated(t);
    k := new HashTable.HashTable<Employee>();
    assert map[] + b == b;
    JoinTablesBeside(k, g, map[], b, t);
  }

  /** Footprints of two tables do not meet. */
  ghost predicate TablesApart(h: HashTable.HashTable?<Employee>, g: HashTable.HashTable?<Employee>)
    reads h, g
  {
    h != null && g != null ==> h != g && h.arr != g.arr && h.items !! g.items
  }

  lemma EmptyTable(g: HashTable.HashTable?<Employee>, b: Roll)
    requires TableOk(g, b)
    ensures g == null || g.counter == 0 <==> b == map[]
  {
  }

  /** The table of two groups together; an empty one is left out, and a missing one is made. */
  method JoinTablesIfAny(h: HashTable.HashTable?<Employee>, g: HashTable.HashTable?<Employee>,
                         ghost a: Roll, ghost b: Roll, ghost t: Tree?) returns (k: HashTable.HashTable?<Employee>)
    requires TableOk(h, a) && TableOk(g, b) && TablesApart(h, g) && a.Keys !! b.Keys && TreeOk(t, a + b)
    modifies h, if h == null then {} else {h.arr}, if h == null then {} else h.items
    ensures TableOk(k, a + b) && TreeOk(t, a + b) && TableOk(g, b) && TableSame(g) && TreeNodes(t) == old(TreeNodes(t))
    ensures TableFrom(h, k)
  {
    hide TreeOk;
    k := h;
    EmptyTable(g, b);
    if g == null || g.counter == 0 {
      assert a + b == a;
    } else if h == null {
      assert a + b == b;
      k := NewTableBeside(g, b, t);
    } else {
      JoinTablesBeside(h, g, a, b, t);
    }
  }

  /** Tree and table of two groups together. */
  method Join(t: Tree?, u: Tree?, h: HashTable.HashTable?<Employee>, g: HashTable.HashTable?<Employee>,
              ghost a: Roll, ghost b: Roll)
    returns (r: Tree?, k: HashTable.HashTable?<Employee>, ghost born: set<Tnode>)
    requires TreeOk(t, a) && TreeOk(u, b) && a.Keys !! b.Keys && (t != null ==> t != u)
    requires TableOk(h, a) && TableOk(g, b) && TablesApart(h, g)
    modifies t, h, if h == null then {} else {h.arr}, if h == null then {} else h.items
    ensures TreeOk(r, a + b) && TableOk(k, a + b) && TableOk(g, b) && TableSame(g)
    ensures fresh(born) && (r == null || r == t || r == u || fresh(r))
    ensures TreeNodes(r) <= born + old(TreeNodes(t)) + old(TreeNodes(u))
    ensures TableFrom(h, k)
  {
    r, born := JoinTrees(t, u, h, g, a, b);
    assert h != null ==> h.arr == old(h.arr) && h.items == old(h.items);
    k := JoinTablesIfAny(h, g, a, b, r);
  }

  /** The counters after an acquisition; those of a company without employees are not even read. */
  function JoinedCount(x: Totals, y: Totals, counted: bool): Totals {
    if counted then Plus(x, y) else x
  }

  lemma {:induction false} JoinedSome(x: Totals, y: Totals, a: Roll, b: Roll)
    requires x == Zeros(a) && y == Zeros(b) && a.Keys !! b.Keys
    ensures Plus(x, y) == Zeros(a + b)
  {
    ZerosMerge(a, b);
  }

  lemma {:induction false} JoinedNone(x: Totals, a: Roll, b: Roll)
    requires x == Zeros(a) && b == map[]
    ensures x == Zeros(a + b)
  {
    NothingJoined(a, b);
  }

  lemma {:induction false} JoinedExact(x: Totals, y: Totals, counted: bool, a: Roll, b: Roll)
    requires x == Zeros(a) && y == Zeros(b) && a.Keys !! b.Keys && (!counted ==> b == map[])
    ensures JoinedCount(x, y, counted) == Zeros(a + b)
  {
    if counted {
      JoinedSome(x, y, a, b);
    } else {
      JoinedNone(x, a, b);
    }
  }

  lemma {:induction false} JoinedKept(a: Roll, b: Roll)
    requires WellKept(a) && WellKept(b)
    ensures WellKept(a + b)
  {
  }

  lemma {:induction false} NothingJoined<K, V>(a: map<K, V>, b: map<K, V>)
    requires b == map[]
    ensures a + b == a
  {
  }

  // ----- queries -----

  /** The paid employees in a salary range: root totals without those below and above. */
  method PaidInRange(t: Tree, lower: int, higher: int, ghost m: Roll) returns (num: int, sum: int)
    requires TreeOk(t, m) && WellKept(m) && t.counter != 0 && lower <= higher
    ensures Totals(num, sum) == PaidBand(m, lower, higher)
  {
    ghost var s := t.Contents();
    TreeAllocated(t);
    SalariesFromTree(t.shape, m);
    SumIsGradeSum(t.shape);
    RangeSplit(s, lower, higher);
    BetweenIsBand(s, m, lower, higher);
    var counter, grades := AverageBumpEmpsHigher(t.root, higher, 0, 0, t.shape, null);
    counter, grades := AverageBumpEmpsLower(t.root, lower, counter, grades, t.shape, null);
    num := t.root.treeNodes - counter;
    sum := t.root.sumGrades - grades;
  }

  lemma {:induction false} PlusTotals(zero: Totals, num: int, sum: int)
    ensures Plus(zero, Totals(num, sum)) == Totals(zero.num + num, zero.sum + sum)
  {
  }

  lemma {:induction false} BandTotals(zero: Totals, num: int, sum: int, m: Roll, lower: int, higher: int)
    requires zero == Zeros(m) && Totals(num, sum) == PaidBand(m, lower, higher) && WellKept(m) && 0 <= lower <= higher
    ensures (if lower == 0 then Totals(zero.num + num, zero.sum + sum) else Totals(num, sum)) == Band(m, lower, higher)
  {
    BandSplit(m, lower, higher);
    if lower == 0 {
      PlusTotals(zero, num, sum);
    }
  }

  /** Without a tree, or with an empty one, nobody is paid. */
  lemma {:induction false} NobodyPaid(t: Tree?, m: Roll, lower: int, higher: int)
    requires TreeOk(t, m) && WellKept(m) && (t == null || t.counter == 0)
    ensures PaidBand(m, lower, higher) == Totals(0, 0) && TreeHolds([], m)
  {
    if t != null {
      SumIsGradeSum(t.shape);
      assert t.Contents() == [];
    }
    assert Sorted([]);
    BetweenIsBand([], m, lower, higher);
  }

  // ----- the shared company numbers -----

  /** The company numbers that all copies of these employees share. */
  ghost function Cells(m: Roll): set<CompanyCell> {
    set x | x in m :: m[x].company
  }

  function Adjusted(id: int, target: int, newComp: int): int {
    if id == target then newComp else id
  }

  /** The company numbers of a group, by employee. */
  ghost function Numbers(m: Roll): map<int, int>
    reads Cells(m)
  {
    map x | x in m :: m[x].company.id
  }

  /** Numbers were `was`; the employees of `ks` have their new one, the others have it already or still have the old one. */
  ghost predicate Adjusting(m: Roll, was: map<int, int>, ks: set<int>, target: int, newComp: int)
    reads Cells(m)
  {
    && was.Keys == m.Keys
    && forall x :: x in m ==> AdjustedAt(m[x].company, was[x], x in ks, target, newComp)
  }

  ghost predicate AdjustedAt(c: CompanyCell, was: int, done: bool, target: int, newComp: int)
    reads c
  {
    (!done && c.id == was) || c.id == Adjusted(was, target, newComp)
  }

  /** Everyone in the table whose company is `target` gets another company, in all copies at once. */
  method AdjustCompanyID(h: Table, target: int, newComp: int, ghost m: Roll)
    requires TableOk(h, m)
    modifies Cells(m)
    ensures TableOk(h, m) && Adjusting(m, old(Numbers(m)), m.Keys, target, newComp)
  {
    ghost var was := Numbers(m);
    var i := 0;
    while i < h.size
      invariant 0 <= i <= h.size && TableOk(h, m)
      invariant Adjusting(m, was, HashTable.Taken(m, h.chains, i, 0), target, newComp)
    {
      AdjustChain(h, i, target, newComp, m, was);
      i := i + 1;
    }
    assert HashTable.Taken(m, h.chains, h.size, 0) == m.Keys;
  }

  method AdjustChain(h: Table, i: int, target: int, newComp: int, ghost m: Roll, ghost was: map<int, int>)
    requires TableOk(h, m) && 0 <= i < h.size && Adjusting(m, was, HashTable.Taken(m, h.chains, i, 0), target, newComp)
    modifies Cells(m)
    ensures TableOk(h, m) && Adjusting(m, was, HashTable.Taken(m, h.chains, i + 1, 0), target, newComp)
  {
    ghost var chain, p := h.chains[i], 0;
    assert HashTable.BucketAt(h.arr, h.chains, h.items, m, i);
    var tmp := h.arr[i];
    while tmp != null
      invariant 0 <= p <= |chain| && tmp == HashTable.At(chain, p) && TableOk(h, m)
      invariant Adjusting(m, was, HashTable.Taken(m, h.chains, i, p), target, newComp)
      decreases |chain| - p
    {
      tmp := AdjustItem(h, tmp, i, p, target, newComp, m, was);
      p := p + 1;
    }
    HashTable.TakenBucket(h.arr, m, h.chains, h.items, i);
  }

  /** One turn of the loop over a chain. */
  method AdjustItem(h: Table, item: HashTable.HtItem<Employee>, ghost i: int, ghost p: int, target: int, newComp: int,
                    ghost m: Roll, ghost was: map<int, int>) returns (next: HashTable.HtItem?<Employee>)
    requires TableOk(h, m) && 0 <= i < h.size && 0 <= p < |h.chains[i]| && item == h.chains[i][p]
    requires Adjusting(m, was, HashTable.Taken(m, h.chains, i, p), target, newComp)
    modifies Cells(m)
    ensures TableOk(h, m) && Adjusting(m, was, HashTable.Taken(m, h.chains, i, p + 1), target, newComp)
    ensures next == HashTable.At(h.chains[i], p + 1)
  {
    ghost var done, k := HashTable.Taken(m, h.chains, i, p), item.key;
    HashTable.TakenStep(h.arr, m, h.chains, h.items, i, p);
    assert HashTable.BucketAt(h.arr, h.chains, h.items, m, i) && HashTable.LinkAt(h.chains[i], p);
    var cell := item.data.company;
    assert cell == m[k].company && AdjustedAt(cell, was[k], k in done, target, newComp);
    Renumber(cell, target, newComp, m, was, done, k);
    next := item.next;
  }

  method Renumber(cell: CompanyCell, target: int, newComp: int, ghost m: Roll, ghost was: map<int, int>,
                  ghost done: set<int>, ghost k: int)
    requires Adjusting(m, was, done, target, newComp) && k in m && cell == m[k].company
    modifies cell
    ensures Adjusting(m, was, done + {k}, target, newComp)
  {
    if cell.id == target {
      cell.id := newComp;
    }
  }

  class Index {
    const id: int
    var numEmpsWithSalZ: int
    var sumEmpsWithSalZ: int
    var salarySorted: Tree?
    var employees: HashTable.HashTable?<Employee>
    ghost var staff: Roll

    /** The three indexes say the same as the list of employees. */
    ghost predicate Valid()
      reads this, salarySorted, if salarySorted == null then {} else Nodes(salarySorted.shape)
      reads employees, if employees == null then {} else {employees.arr},
            if employees == null then {} else employees.items
    {
      WellKept(staff) && TableOk(employees, staff) && TreeOk(salarySorted, staff)
      && Totals(numEmpsWithSalZ, sumEmpsWithSalZ) == Zeros(staff)
    }

    constructor (id: int)
      ensures Valid() && staff == map[] && this.id == id && salarySorted == null && employees == null
    {
      this.id := id;
      numEmpsWithSalZ, sumEmpsWithSalZ, salarySorted, employees := 0, 0, null, null;
      staff := map[];
    }

    /** Writes the counters once tree and table are as they should be. */
    method Settle(num: int, sum: int, ghost m: Roll)
      requires WellKept(m) && TableOk(employees, m) && TreeOk(salarySorted, m) && Totals(num, sum) == Zeros(m)
      modifies this`numEmpsWithSalZ, this`sumEmpsWithSalZ, this`staff
      ensures Valid() && staff == m && TreeNodes(salarySorted) == old(TreeNodes(salarySorted))
    {
      TreeAllocated(salarySorted);
      numEmpsWithSalZ := num;
      sumEmpsWithSalZ := sum;
      staff := m;
    }

    /** The table is made on first use. */
    method EnsureTable()
      requires Valid()
      modifies this`employees
      ensures Valid() && employees != null
      ensures if old(employees) == null then fresh(employees) && fresh(employees.arr) && employees.items == {}
              else employees == old(employees)
    {
      TreeAllocated(salarySorted);
      if employees == null {
        employees := new HashTable.HashTable<Employee>();
      }
    }

    /** Looks an employee up in the table, if there is one. */
    method FindEmployee(employeeID: int) returns (item: HashTable.HtItem?<Employee>)
      requires Valid() && employeeID > 0
      ensures item == null <==> employeeID !in staff
      ensures item != null ==> item.data == staff[employeeID] && item.data.id == employeeID
    {
      item := null;
      if employees != null {
        item := employees.Find(employeeID);
      }
    }

    /** Someone joins without a salary, unless the id is taken. */
    method Hire(e: Employee) returns (res: Status)
      requires Valid() && employees != null && e.id > 0 && e.salary == 0 && e.grade >= 0
      modifies this`staff, this`numEmpsWithSalZ, this`sumEmpsWithSalZ, employees, employees.arr, employees.items
      ensures Valid() && employees == old(employees) && TableGrew(employees)
      ensures res == if e.id in old(staff) then FAILURE else SUCCESS
      ensures staff == if e.id in old(staff) then old(staff) else old(staff)[e.id := e]
    {
      hide TableOk, TreeOk, Zeros;
      ghost var m := staff;
      res := PutIn(salarySorted, employees, e, m);
      if res == SUCCESS {
        Counted(m, e);
        Settle(numEmpsWithSalZ + 1, sumEmpsWithSalZ + e.grade, m[e.id := e]);
      }
    }

    /** Someone leaves. */
    method Dismiss(e: Employee)
      requires Valid() && e.id in staff && staff[e.id] == e
      modifies this`staff, this`numEmpsWithSalZ, this`sumEmpsWithSalZ, employees, employees.arr, employees.items
      modifies salarySorted, if salarySorted == null then {} else Nodes(salarySorted.shape)
      ensures Valid() && staff == old(staff) - {e.id}
      ensures salarySorted == old(salarySorted) && employees == old(employees) && TableGrew(employees)
      ensures TreeNodes(salarySorted) <= old(TreeNodes(salarySorted))
    {
      ghost var m, rest := staff, staff - {e.id};
      Discounted(numEmpsWithSalZ, sumEmpsWithSalZ, e, m);
      KeptWithout(m, e.id);
      var counts := Discount(numEmpsWithSalZ, sumEmpsWithSalZ, e);
      TakeOut(salarySorted, employees, e, m);
      Settle(counts.num, counts.sum, rest);
    }

    /** The tree is made on first use. */
    method EnsureTree()
      requires Valid()
      modifies this`salarySorted
      ensures Valid() && salarySorted != null
      ensures if old(salarySorted) == null then fresh(salarySorted) && Nodes(salarySorted.shape) == {}
              else salarySorted == old(salarySorted)
    {
      if salarySorted == null {
        salarySorted := new Tree();
      }
    }

    /** Someone is paid more, or paid for the first time. */
    method Raise(e: Employee, raised: Employee) returns (ghost born: set<Tnode>)
      requires Valid() && salarySorted != null && e.id in staff && staff[e.id] == e
      requires raised.id == e.id && raised.salary > e.salary && raised.grade == e.grade
      modifies this`staff, this`numEmpsWithSalZ, this`sumEmpsWithSalZ, employees`contents, employees.items
      modifies salarySorted, Nodes(salarySorted.shape)
      ensures Valid() && staff == old(staff)[e.id := raised]
      ensures fresh(born) && Nodes(salarySorted.shape) <= old(Nodes(salarySorted.shape)) + born
    {
      ghost var m := staff;
      RaisedCount(numEmpsWithSalZ, sumEmpsWithSalZ, e, raised, m);
      born := Repay(salarySorted, employees, e, raised, m);
      var counts := Discount(numEmpsWithSalZ, sumEmpsWithSalZ, e);
      Settle(counts.num, counts.sum, m[e.id := raised]);
    }

    /** Someone is promoted. */
    method Promote(e: Employee, bumpGrade: int)
      requires Valid() && e.id in staff && staff[e.id] == e && bumpGrade > 0
      modifies this`staff, this`numEmpsWithSalZ, this`sumEmpsWithSalZ, employees`contents, employees.items
      modifies salarySorted, if salarySorted == null then {} else Nodes(salarySorted.shape)
      ensures Valid() && staff == old(staff)[e.id := Promoted(e, bumpGrade)]
      ensures TreeNodes(salarySorted) == old(TreeNodes(salarySorted))
    {
      ghost var m, after := staff, staff[e.id := Promoted(e, bumpGrade)];
      PromotedCount(numEmpsWithSalZ, sumEmpsWithSalZ, e, bumpGrade, m);
      PromotedKept(e, bumpGrade, m);
      Reward(salarySorted, employees, e, bumpGrade, m);
      var sum := if e.salary == 0 then sumEmpsWithSalZ + bumpGrade else sumEmpsWithSalZ;
      Settle(numEmpsWithSalZ, sum, after);
    }

    /** The employees with a salary in the range, counted and their grades added up. */
    method InRange(lower: int, higher: int) returns (num: int, sum: int)
      requires Valid() && 0 <= lower <= higher
      ensures Totals(num, sum) == Band(staff, lower, higher)
    {
      ghost var zero := Totals(numEmpsWithSalZ, sumEmpsWithSalZ);
      num := if lower == 0 then numEmpsWithSalZ else 0;
      sum := if lower == 0 then sumEmpsWithSalZ else 0;
      if salarySorted == null || salarySorted.counter == 0 {
        NobodyPaid(salarySorted, staff, lower, higher);
        BandTotals(zero, 0, 0, staff, lower, higher);
      } else {
        var paidNum, paidSum := PaidInRange(salarySorted, lower, higher, staff);
        BandTotals(zero, paidNum, paidSum, staff, lower, higher);
        num := num + paidNum;
        sum := sum + paidSum;
      }
    }

    /** Their average grade; a failure if there are none. */
    method AverageBumpGrade(lower: int, higher: int) returns (res: Status, average: real)
      requires Valid() && 0 <= lower <= higher
      ensures var band := Band(staff, lower, higher);
              if band.num == 0 then res == FAILURE
              else res == SUCCESS && average == band.sum as real / band.num as real
    {
      var num, sum := InRange(lower, higher);
      if num == 0 {
        return FAILURE, 0.0;
      }
      res, average := SUCCESS, sum as real / num as real;
    }

    /** The grade sum of the `m` best-paid employees; a failure if fewer are paid at all. */
    method SumOfTop(m: int) returns (res: Status, sum: int)
      requires Valid() && m > 0
      ensures if |Ranking(staff)| < m then res == FAILURE
              else res == SUCCESS && sum == GradeSum(Last(Ranking(staff), m))
    {
      sum := 0;
      if salarySorted == null {
        NobodyPaid(salarySorted, staff, 0, 0);
        TreeHoldsRanking([], staff);
        return FAILURE, sum;
      }
      TreeHoldsRanking(salarySorted.Contents(), staff);
      SumIsGradeSum(salarySorted.shape);
      if salarySorted.counter < m {
        return FAILURE, sum;
      }
      sum := salarySorted.SpecialInOrderAssist(m);
      res := SUCCESS;
    }

    /** Nobody is here any more; the counters of an absorbed company are left as they were. */
    ghost predicate Emptied()
      reads this, employees, if employees == null then {} else {employees.arr},
            if employees == null then {} else employees.items
    {
      staff == map[] && salarySorted == null && TableOk(employees, map[])
    }

    /** The counters of both groups together; those of a company without employees are not read. */
    lemma JoinedCounters(target: Index, counted: bool, counts: Totals)
      requires Valid() && target.Valid() && staff.Keys !! target.staff.Keys
      requires counted == (target.employees != null && target.employees.counter != 0)
      requires counts == JoinedCount(Totals(numEmpsWithSalZ, sumEmpsWithSalZ),
                                     Totals(target.numEmpsWithSalZ, target.sumEmpsWithSalZ), counted)
      ensures counts == Zeros(staff + target.staff) && WellKept(staff + target.staff)
      ensures !counted ==> target.staff == map[]
    {
      EmptyTable(target.employees, target.staff);
      JoinedExact(Totals(numEmpsWithSalZ, sumEmpsWithSalZ), Totals(target.numEmpsWithSalZ, target.sumEmpsWithSalZ),
                  counted, staff, target.staff);
      JoinedKept(staff, target.staff);
    }

    /** All employees of another group come over. */
    method Absorb(target: Index) returns (ghost born: set<Tnode>)
      requires Valid() && target.Valid() && target != this && staff.Keys !! target.staff.Keys
      requires (salarySorted != null ==> salarySorted != target.salarySorted) && TablesApart(employees, target.employees)
      modifies this, target, salarySorted, employees
      modifies if employees == null then {} else {employees.arr}, if employees == null then {} else employees.items
      ensures Valid() && staff == old(staff) + old(target.staff) && target.Emptied()
      ensures Swallowed(this, target, born)
    {
      hide TreeOk, WellKept, Zeros, JoinedCount, TableFrom, TreeNodes;
      var counted := target.employees != null && target.employees.counter != 0;
      var counts := JoinedCount(Totals(numEmpsWithSalZ, sumEmpsWithSalZ),
                                Totals(target.numEmpsWithSalZ, target.sumEmpsWithSalZ), counted);
      JoinedCounters(target, counted, counts);
      ghost var a, b, g, one: object, other: object := staff, target.staff, target.employees, this, target;
      assert one != salarySorted && other != salarySorted && one != employees && other != employees;
      assert employees != null ==> one != employees.arr && other != employees.arr;
      assert employees != null ==> one !in employees.items && other !in employees.items;
      var t, h;
      t, h, born := Join(salarySorted, target.salarySorted, employees, target.employees, a, b);
      HandOver(target, t, h, counts, counted, a + b);
    }

    /** The acquirer gets the joined tree and table; the other keeps no tree, and no table unless it was empty anyway. */
    method HandOver(target: Index, t: Tree?, h: HashTable.HashTable?<Employee>, counts: Totals, counted: bool,
                    ghost both: Roll)
      requires target != this && (!counted ==> TableOk(target.employees, map[]))
      requires WellKept(both) && TreeOk(t, both) && TableOk(h, both) && counts == Zeros(both)
      modifies this, target`salarySorted, target`employees, target`staff
      ensures Valid() && staff == both && salarySorted == t && employees == h && target.Emptied()
      ensures target.employees == null || target.employees == old(target.employees)
      ensures TreeNodes(t) == old(TreeNodes(t))
    {
      target.Clear(counted, t, h, both);
      Become(t, h, counts, both, target);
    }

    /** The absorbed company keeps no tree, and no table unless it was empty anyway. */
    method Clear(counted: bool, ghost t: Tree?, ghost h: HashTable.HashTable?<Employee>, ghost both: Roll)
      requires TreeOk(t, both) && TableOk(h, both) && (!counted ==> TableOk(employees, map[]))
      modifies this`salarySorted, this`employees, this`staff
      ensures Emptied() && TreeOk(t, both) && TableOk(h, both) && TreeNodes(t) == old(TreeNodes(t))
      ensures employees == null || employees == old(employees)
    {
      TreeAllocated(t);
      salarySorted := null;
      if counted {
        employees := null;
      }
      staff := map[];
    }

    /** The acquiring company gets the joined tree and table. */
    method Become(t: Tree?, h: HashTable.HashTable?<Employee>, counts: Totals, ghost both: Roll, ghost target: Index)
      requires target != this && target.Emptied()
      requires WellKept(both) && TreeOk(t, both) && TableOk(h, both) && counts == Zeros(both)
      modifies this
      ensures Valid() && staff == both && salarySorted == t && employees == h && target.Emptied()
      ensures TreeNodes(t) == old(TreeNodes(t))
    {
      TreeAllocated(t);
      salarySorted, employees := t, h;
      Settle(counts.num, counts.sum, both);
    }
  }

  /** After an acquisition, tree and table of the one are old or new, and the other keeps its table at most. */
  twostate predicate Swallowed(x: Index, new y: Index, new born: set<Tnode>)
    requires old(allocated(y))
    reads x, y, x.salarySorted, x.employees, y.employees
  {
    && fresh(born) && y.salarySorted == null && (y.employees == null || y.employees == old(y.employees))
    && TableSame(y.employees)
    && TreeNodes(x.salarySorted) <= born + old(TreeNodes(x.salarySorted)) + old(TreeNodes(y.salarySorted))
    && (x.salarySorted == null || x.salarySorted == old(x.salarySorted) || x.salarySorted == old(y.salarySorted)
        || fresh(x.salarySorted))
    && TableFrom(old(x.employees), x.employees)
  }
}
