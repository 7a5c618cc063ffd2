/** What the indexes of one group of employees must hold, and what each operation makes of them. */
module Roster {
  import opened Staff
  import opened TreeShape
  import opened TreeLaws
  import opened TreeQueries
  import opened TreeMerge
  import opened TreeBump
  import opened Tally

  /** The employees of a company, or of the whole system, by id. */
  type Roll = map<int, Employee>

  ghost predicate WellKept(staff: Roll) {
    forall x :: x in staff ==> staff[x].id == x && x > 0 && staff[x].salary >= 0 && staff[x].grade >= 0
  }

  // ----- the salary tree -----

  function EntryFor(e: Employee): Entry {
    Entry(e, e, e.grade)
  }

  ghost predicate IsPaid(staff: Roll, x: int) {
    x in staff && staff[x].salary > 0
  }

  /** An entry of the tree is a paid employee at the current salary and grade. */
  ghost predicate Current(e: Entry, staff: Roll) {
    e == EntryFor(e.key) && IsPaid(staff, e.key.id) && staff[e.key.id] == e.key
  }

  /** The tree holds exactly the employees with a salary, in order. */
  ghost predicate TreeHolds(s: seq<Entry>, staff: Roll) {
    && Sorted(s) && (forall e :: e in s ==> Current(e, staff))
    && forall x :: IsPaid(staff, x) ==> EntryFor(staff[x]) in s
  }

  /** Someone without a salary is not met by the search; someone with one is met with the current entry. */
  lemma {:induction false} LookupRoll(t: Shape, staff: Roll, key: Employee)
    requires TreeHolds(InOrder(t), staff) && WellKept(staff)
    ensures !IsPaid(staff, key.id) ==> Lookup(t, key).Nil?
    ensures IsPaid(staff, key.id) && staff[key.id] == key ==> Lookup(t, key).Bin? && Lookup(t, key).entry == EntryFor(key)
    ensures Lookup(t, key).Bin? ==> Lookup(t, key).node in Nodes(t)
  {
    if Lookup(t, key).Bin? {
      LookupInOrder(t, key);
      assert Lookup(t, key).entry in InOrder(t);
      assert Current(Lookup(t, key).entry, staff);
    }
    if IsPaid(staff, key.id) && staff[key.id] == key {
      assert EntryFor(key) in InOrder(t);
      var i :| 0 <= i < |InOrder(t)| && InOrder(t)[i] == EntryFor(key);
      assert SamePlace(InOrder(t)[i].key, key);
      LookupHits(t, key);
    }
  }

  /** Someone with a salary is stored at it, with the current grade. */
  lemma {:induction false} StoredRoll(s: seq<Entry>, staff: Roll, key: Employee)
    requires TreeHolds(s, staff) && IsPaid(staff, key.id) && staff[key.id] == key
    ensures Stores(s, key) && forall e :: e in s && SamePlace(e.key, key) ==> e.grade == key.grade
  {
    assert EntryFor(key) in s;
    var i :| 0 <= i < |s| && s[i] == EntryFor(key);
    assert SamePlace(s[i].key, key);
    forall e | e in s && SamePlace(e.key, key)
      ensures e.grade == key.grade
    {
      assert Current(e, staff);
    }
  }

  /** The search looks at id and salary alone. */
  lemma {:induction false} LookupSamePlace(t: Shape, a: Employee, b: Employee)
    requires SamePlace(a, b)
    ensures Lookup(t, a) == Lookup(t, b)
  {
    if t.Bin? {
      LookupSamePlace(t.left, a, b);
      LookupSamePlace(t.right, a, b);
    }
  }

  lemma {:induction false} LookupEntry(t: Shape, key: Employee)
    requires Distinct(t) && Lookup(t, key).Bin?
    ensures Lookup(t, key).node in Nodes(t) && EntryOf(t, Lookup(t, key).node) == Lookup(t, key).entry
  {
    if !SameId(t.entry.key, key) {
      if Less(t.entry.key, key) {
        LookupEntry(t.right, key);
      } else {
        LookupEntry(t.left, key);
      }
    }
  }

  /** Nobody else in the tree stands at the place of someone who is not in it. */
  lemma {:induction false} NotPlaced(s: seq<Entry>, staff: Roll, e: Employee)
    requires TreeHolds(s, staff) && !IsPaid(staff, e.id)
    ensures forall i :: 0 <= i < |s| ==> !SamePlace(s[i].key, e)
  {
    forall i | 0 <= i < |s|
      ensures !SamePlace(s[i].key, e)
    {
      assert Current(s[i], staff);
    }
  }

  lemma {:induction false} TreeAfterInsert(s: seq<Entry>, staff: Roll, e: Employee)
    requires TreeHolds(s, staff) && !IsPaid(staff, e.id) && e.salary > 0
    ensures TreeHolds(InsertEntry(s, EntryFor(e)), staff[e.id := e])
  {
    NotPlaced(s, staff, e);
    var k := InsertEntrySplits(s, EntryFor(e));
    var r, now := InsertEntry(s, EntryFor(e)), staff[e.id := e];
    assert s == s[..k] + s[k..];
    forall x | x in r
      ensures Current(x, now)
    {
      if x != EntryFor(e) {
        assert x in s;
        assert Current(x, staff);
      }
    }
    forall x | IsPaid(now, x)
      ensures EntryFor(now[x]) in r
    {
      if x != e.id {
        assert IsPaid(staff, x);
      }
    }
  }

  lemma {:induction false} TreeAfterRemove(s: seq<Entry>, staff: Roll, x: int)
    requires TreeHolds(s, staff) && WellKept(staff) && IsPaid(staff, x)
    ensures TreeHolds(RemoveKey(s, staff[x]), staff - {x})
  {
    var r, now := RemoveKey(s, staff[x]), staff - {x};
    RemoveKeyMembers(s, staff[x]);
    RemoveKeySorted(s, staff[x]);
    forall e | e in r
      ensures Current(e, now)
    {
      assert Current(e, staff);
    }
    forall y | IsPaid(now, y)
      ensures EntryFor(now[y]) in r
    {
      assert IsPaid(staff, y);
    }
  }

  /** Those without a salary come, change and go without a trace in the tree. */
  lemma {:induction false} TreeWithoutUnpaid(s: seq<Entry>, before: Roll, after: Roll)
    requires TreeHolds(s, before)
    requires forall x :: IsPaid(after, x) <==> IsPaid(before, x)
    requires forall x :: IsPaid(after, x) ==> after[x] == before[x]
    ensures TreeHolds(s, after)
  {
    forall e | e in s
      ensures Current(e, after)
    {
      assert Current(e, before);
    }
    forall x | IsPaid(after, x)
      ensures EntryFor(after[x]) in s
    {
      assert IsPaid(before, x);
    }
  }

  lemma {:induction false} TreeAfterBump(s: seq<Entry>, staff: Roll, x: int, g: int)
    requires TreeHolds(s, staff) && WellKept(staff) && IsPaid(staff, x)
    ensures TreeHolds(BumpKey(s, staff[x], g), staff[x := staff[x].(grade := g)])
  {
    var r, now := BumpKey(s, staff[x], g), staff[x := staff[x].(grade := g)];
    BumpKeySorted(s, staff[x], g);
    assert Sorted(r);
    forall i | 0 <= i < |r|
      ensures Current(r[i], now)
    {
      assert Current(s[i], staff);
    }
    forall y | IsPaid(now, y)
      ensures EntryFor(now[y]) in r
    {
      assert IsPaid(staff, y) && EntryFor(staff[y]) in s;
      var i :| 0 <= i < |s| && s[i] == EntryFor(staff[y]);
      assert r[i] == EntryFor(now[y]);
    }
  }

  /** Two groups without a common employee: their trees have no common place, and the merge holds both. */
  lemma {:induction false} TreeAfterMerge(a: seq<Entry>, b: seq<Entry>, staffA: Roll, staffB: Roll)
    requires TreeHolds(a, staffA) && TreeHolds(b, staffB) && staffA.Keys !! staffB.Keys
    ensures Apart(a, b) && TreeHolds(Copies(MergeEntries(a, b)), staffA + staffB)
  {
    forall i, j | 0 <= i < |a| && 0 <= j < |b|
      ensures !SamePlace(a[i].key, b[j].key)
    {
      assert Current(a[i], staffA) && Current(b[j], staffB);
    }
    MergeSorted(a, b);
    MergeKeepsAll(a, b);
    var m, both := MergeEntries(a, b), staffA + staffB;
    forall e | e in m
      ensures e in a || e in b
    {
      assert e in multiset(m);
    }
    forall e | e in a || e in b
      ensures e in m
    {
      assert e in multiset(m);
    }
    MergedCurrent(a, b, staffA, staffB, m);
    CopiesExact(m);
  }

  lemma {:induction false} MergedCurrent(a: seq<Entry>, b: seq<Entry>, staffA: Roll, staffB: Roll, m: seq<Entry>)
    requires TreeHolds(a, staffA) && TreeHolds(b, staffB) && staffA.Keys !! staffB.Keys && Sorted(m)
    requires forall e :: e in m <==> e in a || e in b
    ensures TreeHolds(m, staffA + staffB) && forall k :: 0 <= k < |m| ==> m[k].grade == m[k].data.grade
  {
    var both := staffA + staffB;
    forall e | e in m
      ensures Current(e, both)
    {
      assert if e in a then Current(e, staffA) else Current(e, staffB);
    }
    forall k | 0 <= k < |m|
      ensures m[k].grade == m[k].data.grade
    {
      assert Current(m[k], both);
    }
    forall x | IsPaid(both, x)
      ensures EntryFor(both[x]) in m
    {
      assert if x in staffB then IsPaid(staffB, x) else IsPaid(staffA, x);
    }
  }

  /** The paid employees, from the lowest salary to the highest. */
  ghost function Ranking(staff: Roll): seq<Entry>
    decreases |staff|
  {
    if staff == map[] then []
    else
      var x := Pick(staff.Keys);
      if IsPaid(staff, x) then InsertEntry(Ranking(staff - {x}), EntryFor(staff[x])) else Ranking(staff - {x})
  }

  lemma {:induction false} PutBack<K, V>(m: map<K, V>, k: K)
    requires k in m
    ensures (m - {k})[k := m[k]] == m
  {
  }

  lemma {:induction false} RankingHolds(staff: Roll)
    requires WellKept(staff)
    ensures TreeHolds(Ranking(staff), staff)
    decreases |staff|
  {
    if staff != map[] {
      var x := Pick(staff.Keys);
      var rest := staff - {x};
      RankingHolds(rest);
      if IsPaid(staff, x) {
        TreeAfterInsert(Ranking(rest), rest, staff[x]);
        PutBack(staff, x);
      } else {
        TreeWithoutUnpaid(Ranking(rest), rest, staff);
      }
    }
  }

  /** What the ranking is: each paid employee once, with the current record and grade, by salary and among equals by id. */
  lemma {:induction false} RankingExact(staff: Roll)
    requires WellKept(staff)
    ensures forall i, j :: 0 <= i < j < |Ranking(staff)| ==>
              var a, b := Ranking(staff)[i].key, Ranking(staff)[j].key;
              a.salary < b.salary || (a.salary == b.salary && a.id < b.id)
    ensures forall e :: e in Ranking(staff) ==>
              e.key.id in staff && e.key == e.data == staff[e.key.id] && e.key.salary > 0 && e.grade == e.key.grade
    ensures forall x :: x in staff && staff[x].salary > 0 ==> Entry(staff[x], staff[x], staff[x].grade) in Ranking(staff)
  {
    RankingHolds(staff);
    var r := Ranking(staff);
    forall i, j | 0 <= i < j < |r|
      ensures r[i].key.salary < r[j].key.salary || (r[i].key.salary == r[j].key.salary && r[i].key.id < r[j].key.id)
    {
      assert Less(r[i].key, r[j].key);
    }
    forall e | e in r
      ensures Current(e, staff)
    {
    }
    forall x | x in staff && staff[x].salary > 0
      ensures Entry(staff[x], staff[x], staff[x].grade) in r
    {
      assert IsPaid(staff, x);
    }
  }

  lemma {:induction false} FirstLeast(s: seq<Entry>, e: Entry)
    requires Sorted(s) && e in s
    ensures e == s[0] || Less(s[0].key, e.key)
  {
    var i :| 0 <= i < |s| && s[i] == e;
  }

  lemma {:induction false} FirstIsSame(a: seq<Entry>, b: seq<Entry>)
    requires Sorted(a) && Sorted(b) && a != [] && forall e :: e in a <==> e in b
    ensures b != [] && a[0] == b[0]
  {
    assert a[0] in b;
    assert b[0] in a;
    FirstLeast(a, b[0]);
    FirstLeast(b, a[0]);
  }

  /** There is one such sequence only: the paid employees, from the lowest salary to the highest. */
  lemma {:induction false} TreeHoldsOne(a: seq<Entry>, b: seq<Entry>, staff: Roll)
    requires TreeHolds(a, staff) && TreeHolds(b, staff) && WellKept(staff)
    ensures a == b
    decreases |a|
  {
    assert a != [] ==> a[0] in a && Current(a[0], staff);
    assert b != [] ==> b[0] in b && Current(b[0], staff);
    forall e
      ensures e in a <==> e in b
    {
      assert e in a || e in b ==> Current(e, staff);
    }
    if a != [] {
      FirstIsSame(a, b);
      TreeTail(a, staff);
      TreeTail(b, staff);
      TreeHoldsOne(a[1..], b[1..], staff - {a[0].key.id});
    }
  }

  /** So a tree's sequence is the ranking, whatever the tree looks like. */
  lemma {:induction false} TreeHoldsRanking(s: seq<Entry>, staff: Roll)
    requires TreeHolds(s, staff) && WellKept(staff)
    ensures s == Ranking(staff)
  {
    RankingHolds(staff);
    TreeHoldsOne(s, Ranking(staff), staff);
  }

  // ----- those without a salary -----

  function Share(e: Employee): Totals {
    if e.salary == 0 then Totals(1, e.grade) else Totals(0, 0)
  }

  ghost function Shares(staff: Roll): map<int, Totals> {
    map x | x in staff :: Share(staff[x])
  }

  /** How many employees have no salary, and the sum of their grades. */
  ghost function Zeros(staff: Roll): Totals {
    Over(Shares(staff), Shares(staff).Keys)
  }

  lemma {:induction false} ZerosNatural(staff: Roll)
    requires WellKept(staff)
    ensures Zeros(staff).num >= 0 && Zeros(staff).sum >= 0
  {
    OverNatural(Shares(staff), Shares(staff).Keys);
  }

  lemma {:induction false} ZerosSplit(staff: Roll, x: int)
    requires x in staff
    ensures Zeros(staff) == Plus(Share(staff[x]), Zeros(staff - {x}))
  {
    var rest := Shares(staff - {x});
    CountFirst(Shares(staff), Shares(staff).Keys, x);
    assert rest.Keys == Shares(staff).Keys - {x};
    SameCount(Shares(staff), rest, rest.Keys);
  }

  lemma {:induction false} UpdateWithout<K, V>(m: map<K, V>, x: K, v: V)
    ensures m[x := v] - {x} == m - {x}
  {
  }

  /** One employee joins or changes. */
  lemma {:induction false} ZerosUpdate(staff: Roll, x: int, e: Employee)
    ensures Zeros(staff[x := e]) == Plus(Share(e), Zeros(staff - {x}))
  {
    ZerosSplit(staff[x := e], x);
    UpdateWithout(staff, x, e);
  }

  lemma {:induction false} ZerosMerge(a: Roll, b: Roll)
    requires a.Keys !! b.Keys
    ensures Zeros(a + b) == Plus(Zeros(a), Zeros(b))
  {
    var both := Shares(a + b);
    assert both.Keys == Shares(a).Keys + Shares(b).Keys;
    CountBoth(both, Shares(a).Keys, Shares(b).Keys, both.Keys);
    SameCount(both, Shares(a), Shares(a).Keys);
    SameCount(both, Shares(b), Shares(b).Keys);
  }

  // ----- salaries in a range -----

  /** Every key carries the salary of its data. */
  lemma {:induction false} SalariesFromTree(t: Shape, staff: Roll)
    requires forall e :: e in InOrder(t) ==> Current(e, staff)
    ensures SalariesAgree(t)
  {
    if t.Bin? {
      assert t.entry in InOrder(t);
      assert Current(t.entry, staff);
      forall e | e in InOrder(t.left) || e in InOrder(t.right)
        ensures Current(e, staff)
      {
        assert e in InOrder(t);
      }
      SalariesFromTree(t.left, staff);
      SalariesFromTree(t.right, staff);
    }
  }

  function BandShare(e: Employee, lower: int, higher: int): Totals {
    if lower <= e.salary <= higher then Totals(1, e.grade) else Totals(0, 0)
  }

  function PaidShare(e: Employee, lower: int, higher: int): Totals {
    if e.salary > 0 then BandShare(e, lower, higher) else Totals(0, 0)
  }

  ghost function BandShares(staff: Roll, lower: int, higher: int): map<int, Totals> {
    map x | x in staff :: BandShare(staff[x], lower, higher)
  }

  ghost function PaidShares(staff: Roll, lower: int, higher: int): map<int, Totals> {
    map x | x in staff :: PaidShare(staff[x], lower, higher)
  }

  /** How many employees have a salary in the range, and the sum of their grades. */
  ghost function Band(staff: Roll, lower: int, higher: int): Totals {
    Over(BandShares(staff, lower, higher), staff.Keys)
  }

  ghost function PaidBand(staff: Roll, lower: int, higher: int): Totals {
    Over(PaidShares(staff, lower, higher), staff.Keys)
  }

  lemma {:induction false} ShareSplit(e: Employee, higher: int)
    requires 0 <= e.salary && 0 <= higher
    ensures BandShare(e, 0, higher) == Plus(Share(e), PaidShare(e, 0, higher))
  {
  }

  lemma {:induction false} BandFromZero(staff: Roll, higher: int)
    requires WellKept(staff) && 0 <= higher
    ensures Band(staff, 0, higher) == Plus(Zeros(staff), PaidBand(staff, 0, higher))
  {
    var a, b, c := Shares(staff), PaidShares(staff, 0, higher), BandShares(staff, 0, higher);
    forall x | x in staff.Keys
      ensures c[x] == Plus(a[x], b[x])
    {
      ShareSplit(staff[x], higher);
    }
    OverSum(a, b, c, staff.Keys);
    assert a.Keys == staff.Keys;
  }

  /** Those without a salary are in the range exactly when it starts at zero. */
  lemma {:induction false} BandSplit(staff: Roll, lower: int, higher: int)
    requires WellKept(staff) && 0 <= lower <= higher
    ensures Band(staff, lower, higher) ==
            if lower == 0 then Plus(Zeros(staff), PaidBand(staff, lower, higher)) else PaidBand(staff, lower, higher)
  {
    if lower == 0 {
      BandFromZero(staff, higher);
    } else {
      forall x | x in staff.Keys
        ensures BandShares(staff, lower, higher)[x] == PaidShares(staff, lower, higher)[x]
      {
        assert staff[x].salary >= 0;
      }
      SameCount(BandShares(staff, lower, higher), PaidShares(staff, lower, higher), staff.Keys);
    }
  }

  lemma {:induction false} PaidBandSplit(staff: Roll, x: int, lower: int, higher: int)
    requires x in staff
    ensures PaidBand(staff, lower, higher) == Plus(PaidShare(staff[x], lower, higher), PaidBand(staff - {x}, lower, higher))
  {
    var all, rest := PaidShares(staff, lower, higher), PaidShares(staff - {x}, lower, higher);
    CountFirst(all, staff.Keys, x);
    assert (staff - {x}).Keys == staff.Keys - {x};
    SameCount(all, rest, staff.Keys - {x});
  }

  /** Without the first entry, the tree holds everyone else. */
  lemma {:induction false} TreeTail(s: seq<Entry>, staff: Roll)
    requires TreeHolds(s, staff) && WellKept(staff) && s != []
    ensures s[0].key.id in staff && staff[s[0].key.id] == s[0].key && s[0].grade == s[0].key.grade && s[0].key.salary > 0
    ensures TreeHolds(s[1..], staff - {s[0].key.id})
  {
    assert s[0] in s;
    assert Current(s[0], staff);
    var x, rest := s[0].key.id, staff - {s[0].key.id};
    forall e | e in s[1..]
      ensures Current(e, rest)
    {
      var i :| 1 <= i < |s| && s[i] == e;
      assert Current(s[i], staff) && Less(s[0].key, s[i].key);
    }
    forall y | IsPaid(rest, y)
      ensures EntryFor(rest[y]) in s[1..]
    {
      assert IsPaid(staff, y) && EntryFor(staff[y]) in s;
      assert s == [s[0]] + s[1..];
    }
  }

  /** The entries in the range are the paid employees in it. */
  lemma {:induction false} BetweenIsBand(s: seq<Entry>, staff: Roll, lower: int, higher: int)
    requires TreeHolds(s, staff) && WellKept(staff)
    ensures Totals(|Between(s, lower, higher)|, GradeSum(Between(s, lower, higher))) == PaidBand(staff, lower, higher)
    decreases |s|
  {
    if s == [] {
      forall x | x in staff
        ensures PaidShare(staff[x], lower, higher) == Totals(0, 0)
      {
        assert !IsPaid(staff, x);
      }
      OverNothing(PaidShares(staff, lower, higher), staff.Keys);
    } else {
      TreeTail(s, staff);
      BetweenIsBand(s[1..], staff - {s[0].key.id}, lower, higher);
      PaidBandSplit(staff, s[0].key.id, lower, higher);
      var first: seq<Entry> := if lower <= s[0].key.salary <= higher then [s[0]] else [];
      GradeSumAppend(first, Between(s[1..], lower, higher));
    }
  }
}
