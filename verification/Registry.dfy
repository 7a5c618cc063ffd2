/** All indexes in a row, the system's own in front: each holds the roll it should, whatever is done to one of them. */
module Registry {
  import opened Staff
  import opened TreeShape
  import opened TreeLaws
  import opened TreeQueries
  import HashTable
  import opened Tally
  import opened Roster
  import opened StaffIndex
  import opened IndexFamily
  import opened Placement

  /** The counters are those of the roll. */
  ghost predicate Counted(x: Index)
    reads x
  {
    WellKept(x.staff) && Totals(x.numEmpsWithSalZ, x.sumEmpsWithSalZ) == Zeros(x.staff)
  }

  lemma {:induction false} ValidParts(x: Index)
    ensures x.Valid() <==> Stocked(x) && Counted(x)
  {
  }

  ghost function Books(ixs: seq<Index>): set<Index> {
    set x | x in ixs
  }

  /** An index holds this roll; if nobody has absorbed it, it counts those without a salary, too. */
  ghost predicate Holds(x: Index, roll: Roll, live: bool)
    reads x
  {
    x.staff == roll && (live ==> Counted(x))
  }

  ghost predicate HoldsAt(ixs: seq<Index>, rolls: seq<Roll>, live: set<int>, i: int)
    requires 0 <= i < |ixs| == |rolls|
    reads ixs[i]
  {
    Holds(ixs[i], rolls[i], i in live)
  }

  ghost predicate Shelf(ixs: seq<Index>, rolls: seq<Roll>, live: set<int>)
    reads ixs, Tops(Books(ixs)), Estate(Books(ixs))
  {
    && |ixs| == |rolls| && (forall i, j :: 0 <= i < j < |ixs| ==> ixs[i] != ixs[j]) && Family(Books(ixs))
    && forall i :: 0 <= i < |ixs| ==> HoldsAt(ixs, rolls, live, i)
  }

  lemma {:induction false} ShelfValid(ixs: seq<Index>, rolls: seq<Roll>, live: set<int>, i: int)
    requires Shelf(ixs, rolls, live) && 0 <= i < |ixs| && i in live
    ensures ixs[i].Valid() && ixs[i].staff == rolls[i] && ixs[i] in Books(ixs)
    ensures Parts(ixs[i]) <= Estate(Books(ixs))
  {
    assert HoldsAt(ixs, rolls, live, i);
    ValidParts(ixs[i]);
    TakeOne(Books(ixs), ixs[i]);
  }

  /** Nothing that belongs to the indexes has changed. */
  twostate lemma ShelfStill(ixs: seq<Index>, new rolls: seq<Roll>, new live: set<int>, new objs: set<object>)
    requires old(allocated(rolls) && allocated(objs) && Shelf(ixs, rolls, live)) && old(Estate(Books(ixs)) <= objs)
    requires Still(objs)
    ensures Shelf(ixs, rolls, live) && Estate(Books(ixs)) == old(Estate(Books(ixs)))
  {
    var estate := old(Estate(Books(ixs)));
    StillFamily(Books(ixs), estate);
    MembersStill(Books(ixs), estate);
    forall i | 0 <= i < |ixs|
      ensures HoldsAt(ixs, rolls, live, i)
    {
      assert old(HoldsAt(ixs, rolls, live, i)) && ixs[i] in Books(ixs);
      assert Same(ixs[i]);
    }
  }

  /** One index has another roll now, the others are the same. */
  twostate lemma ShelfUpdated(ixs: seq<Index>, new rolls: seq<Roll>, new live: set<int>, new i: int, new roll: Roll)
    requires old(allocated(rolls) && Shelf(ixs, rolls, live)) && 0 <= i < |ixs|
    requires Family(Books(ixs)) && AllSame(Books(ixs) - {ixs[i]})
    requires Holds(ixs[i], roll, i in live)
    ensures Shelf(ixs, rolls[i := roll], live)
  {
    var now := rolls[i := roll];
    forall j | 0 <= j < |ixs|
      ensures HoldsAt(ixs, now, live, j)
    {
      if j != i {
        assert old(HoldsAt(ixs, rolls, live, j)) && ixs[j] in Books(ixs) - {ixs[i]};
        assert Same(ixs[j]);
      }
    }
  }

  lemma {:induction false} SameUpdate<T>(s: seq<T>, i: int)
    requires 0 <= i < |s|
    ensures s[i := s[i]] == s
  {
  }

  /** What belongs to the other indexes, apart from the one that is about to change. */
  lemma Others(ixs: seq<Index>, rolls: seq<Roll>, live: set<int>, i: int) returns (rest: set<object>)
    requires Shelf(ixs, rolls, live) && 0 <= i < |ixs| && i in live
    ensures ixs[i].Valid() && ixs[i].staff == rolls[i] && |rolls| == |ixs|
    ensures rest == Estate(Books(ixs) - {ixs[i]}) && Parts(ixs[i]) !! rest && allocated(rest)
    ensures Parts(ixs[i]) <= Estate(Books(ixs))
  {
    ShelfValid(ixs, rolls, live, i);
    TakeOne(Books(ixs), ixs[i]);
    AllAllocated(Books(ixs) - {ixs[i]});
    rest := Estate(Books(ixs) - {ixs[i]});
  }

  /** One index has changed and nothing of the others has: all of them are a shelf again. */
  twostate lemma Regained(ixs: seq<Index>, new rolls: seq<Roll>, new live: set<int>, new i: int, new rest: set<object>)
    returns (born: set<object>)
    requires old(allocated(rolls) && allocated(rest) && Shelf(ixs, rolls, live)) && 0 <= i < |ixs|
    requires old(rest == Estate(Books(ixs) - {ixs[i]}) && Parts(ixs[i]) !! rest) && Still(rest)
    requires ixs[i].Valid() && fresh(Parts(ixs[i]) - old(Parts(ixs[i])))
    ensures Shelf(ixs, rolls[i := ixs[i].staff], live)
    ensures fresh(born) && Estate(Books(ixs)) <= old(Estate(Books(ixs))) + born
  {
    assert ixs[i] in Books(ixs);
    ValidParts(ixs[i]);
    Rejoin(Books(ixs), ixs[i], rest);
    MembersStill(Books(ixs) - {ixs[i]}, rest);
    ShelfUpdated(ixs, rolls, live, i, ixs[i].staff);
    born := Estate(Books(ixs)) - old(Estate(Books(ixs)));
  }

  method EnsureTableAt(ixs: seq<Index>, i: int, ghost rolls: seq<Roll>, ghost live: set<int>)
    returns (ghost born: set<object>)
    requires Shelf(ixs, rolls, live) && 0 <= i < |ixs| && i in live
    modifies Estate(Books(ixs))
    ensures Shelf(ixs, rolls, live) && ixs[i].employees != null
    ensures fresh(born) && Estate(Books(ixs)) <= old(Estate(Books(ixs))) + born
  {
    hide Shelf, Family, Estate, Parts;
    ghost var rest := Others(ixs, rolls, live, i);
    EnsureTableOne(ixs[i]);
    assert Still(rest);
    born := Regained(ixs, rolls, live, i, rest);
    SameUpdate(rolls, i);
  }

  method EnsureTreeAt(ixs: seq<Index>, i: int, ghost rolls: seq<Roll>, ghost live: set<int>)
    returns (ghost born: set<object>)
    requires Shelf(ixs, rolls, live) && 0 <= i < |ixs| && i in live
    modifies Estate(Books(ixs))
    ensures Shelf(ixs, rolls, live) && ixs[i].salarySorted != null
    ensures fresh(born) && Estate(Books(ixs)) <= old(Estate(Books(ixs))) + born
  {
    hide Shelf, Family, Estate, Parts;
    ghost var rest := Others(ixs, rolls, live, i);
    EnsureTreeOne(ixs[i]);
    assert Still(rest);
    born := Regained(ixs, rolls, live, i, rest);
    SameUpdate(rolls, i);
  }

  method HireAt(ixs: seq<Index>, i: int, e: Employee, ghost rolls: seq<Roll>, ghost live: set<int>)
    returns (res: Status, ghost born: set<object>)
    requires Shelf(ixs, rolls, live) && 0 <= i < |ixs| && i in live && ixs[i].employees != null
    requires e.id > 0 && e.salary == 0 && e.grade >= 0
    modifies Estate(Books(ixs))
    ensures res == if e.id in rolls[i] then FAILURE else SUCCESS
    ensures Shelf(ixs, if e.id in rolls[i] then rolls else rolls[i := rolls[i][e.id := e]], live)
    ensures fresh(born) && Estate(Books(ixs)) <= old(Estate(Books(ixs))) + born
  {
    hide Shelf, Family, Estate, Parts;
    ghost var rest := Others(ixs, rolls, live, i);
    res := HireOne(ixs[i], e);
    assert Still(rest);
    born := Regained(ixs, rolls, live, i, rest);
    SameUpdate(rolls, i);
  }

  method DismissAt(ixs: seq<Index>, i: int, e: Employee, ghost rolls: seq<Roll>, ghost live: set<int>)
    returns (ghost born: set<object>)
    requires Shelf(ixs, rolls, live) && 0 <= i < |ixs| && i in live && e.id in rolls[i] && rolls[i][e.id] == e
    modifies Estate(Books(ixs))
    ensures Shelf(ixs, rolls[i := rolls[i] - {e.id}], live)
    ensures fresh(born) && Estate(Books(ixs)) <= old(Estate(Books(ixs))) + born
  {
    hide Shelf, Family, Estate, Parts;
    ghost var rest := Others(ixs, rolls, live, i);
    DismissOne(ixs[i], e);
    assert Still(rest);
    born := Regained(ixs, rolls, live, i, rest);
  }

  method RaiseAt(ixs: seq<Index>, i: int, e: Employee, raised: Employee, ghost rolls: seq<Roll>, ghost live: set<int>)
    returns (ghost born: set<object>)
    requires Shelf(ixs, rolls, live) && 0 <= i < |ixs| && i in live && e.id in rolls[i] && rolls[i][e.id] == e
    requires ixs[i].salarySorted != null
    requires raised.id == e.id && raised.salary > e.salary && raised.grade == e.grade
    modifies Estate(Books(ixs))
    ensures Shelf(ixs, rolls[i := rolls[i][e.id := raised]], live)
    ensures fresh(born) && Estate(Books(ixs)) <= old(Estate(Books(ixs))) + born
  {
    hide Shelf, Family, Estate, Parts;
    ghost var rest := Others(ixs, rolls, live, i);
    RaiseOne(ixs[i], e, raised);
    assert Still(rest);
    born := Regained(ixs, rolls, live, i, rest);
  }

  method PromoteAt(ixs: seq<Index>, i: int, e: Employee, bumpGrade: int, ghost rolls: seq<Roll>, ghost live: set<int>)
    returns (ghost born: set<object>)
    requires Shelf(ixs, rolls, live) && 0 <= i < |ixs| && i in live && e.id in rolls[i] && rolls[i][e.id] == e
    requires bumpGrade > 0
    modifies Estate(Books(ixs))
    ensures Shelf(ixs, rolls[i := rolls[i][e.id := Promoted(e, bumpGrade)]], live)
    ensures fresh(born) && Estate(Books(ixs)) <= old(Estate(Books(ixs))) + born
  {
    hide Shelf, Family, Estate, Parts;
    ghost var rest := Others(ixs, rolls, live, i);
    PromoteOne(ixs[i], e, bumpGrade);
    assert Still(rest);
    born := Regained(ixs, rolls, live, i, rest);
  }

  /** One index has taken in another one. */
  twostate lemma ShelfJoined(ixs: seq<Index>, new rolls: seq<Roll>, new live: set<int>,
                             new i: int, new j: int, new roll: Roll)
    requires old(allocated(rolls) && Shelf(ixs, rolls, live)) && 0 <= i < |ixs| && 0 <= j < |ixs| && i != j
    requires Family(Books(ixs)) && AllSame(Books(ixs) - {ixs[i]} - {ixs[j]})
    requires Holds(ixs[i], roll, true) && ixs[j].staff == map[]
    ensures Shelf(ixs, rolls[i := roll][j := map[]], live - {j})
  {
    var now := rolls[i := roll][j := map[]];
    forall k | 0 <= k < |ixs|
      ensures HoldsAt(ixs, now, live - {j}, k)
    {
      if k != i && k != j {
        assert old(HoldsAt(ixs, rolls, live, k)) && ixs[k] in Books(ixs) - {ixs[i]} - {ixs[j]};
        assert Same(ixs[k]);
      }
    }
  }

  method AbsorbAt(ixs: seq<Index>, i: int, j: int, ghost rolls: seq<Roll>, ghost live: set<int>)
    returns (ghost born: set<object>)
    requires Shelf(ixs, rolls, live) && 0 <= i < |ixs| && 0 <= j < |ixs| && i != j && i in live && j in live
    requires rolls[i].Keys !! rolls[j].Keys
    modifies Estate(Books(ixs))
    ensures Shelf(ixs, rolls[i := rolls[i] + rolls[j]][j := map[]], live - {j})
    ensures fresh(born) && Estate(Books(ixs)) <= old(Estate(Books(ixs))) + born
  {
    ShelfValid(ixs, rolls, live, i);
    ShelfValid(ixs, rolls, live, j);
    var x, y := ixs[i], ixs[j];
    ghost var s := Books(ixs);
    TakeOne(s, x);
    TakeOne(s - {x}, y);
    AllAllocated(s);
    ghost var rest := Estate(s - {x} - {y});
    ghost var nodes := AbsorbOne(x, y);
    assert Still(rest);
    SwallowedParts(x, y, nodes);
    RejoinTwo(s, x, y, rest);
    MembersStill(s - {x} - {y}, rest);
    born := Estate(s) - old(Estate(s));
    ValidParts(ixs[i]);
    ShelfJoined(ixs, rolls, live, i, j, ixs[i].staff);
  }

  // ----- the system's index and a company's, one after the other -----

  method EnlistAt(ixs: seq<Index>, i: int, e: Employee, ghost rolls: seq<Roll>, ghost live: set<int>)
    returns (res: Status, ghost born: set<object>)
    requires Shelf(ixs, rolls, live) && 0 <= i < |ixs| && i in live && e.id > 0 && e.salary == 0 && e.grade >= 0
    modifies Estate(Books(ixs))
    ensures res == if e.id in rolls[i] then FAILURE else SUCCESS
    ensures Shelf(ixs, if e.id in rolls[i] then rolls else rolls[i := rolls[i][e.id := e]], live)
    ensures fresh(born) && Estate(Books(ixs)) <= old(Estate(Books(ixs))) + born
  {
    born := EnsureTableAt(ixs, i, rolls, live);
    ghost var more;
    res, more := HireAt(ixs, i, e, rolls, live);
    born := born + more;
  }

  /** Someone new is listed with the system and with company `c`. */
  method Enlist(ixs: seq<Index>, c: int, e: Employee, ghost m: Roll, ghost home: map<int, int>, ghost live: set<int>)
    returns (res: Status, ghost born: set<object>)
    requires Shelf(ixs, Rolls(m, home, |ixs|), live) && home.Keys == m.Keys
    requires 0 < c < |ixs| && 0 in live && c in live && e.id > 0 && e.salary == 0 && e.grade >= 0
    modifies Estate(Books(ixs))
    ensures res == if e.id in m then FAILURE else SUCCESS
    ensures if e.id in m then Shelf(ixs, Rolls(m, home, |ixs|), live)
            else Shelf(ixs, Rolls(m[e.id := e], home[e.id := c], |ixs|), live)
    ensures fresh(born) && Estate(Books(ixs)) <= old(Estate(Books(ixs))) + born
  {
    ghost var rolls := Rolls(m, home, |ixs|);
    res, born := EnlistAt(ixs, 0, e, rolls, live);
    if res == SUCCESS {
      RollsAdd(m, home, e, c, |ixs|);
      ghost var more;
      res, more := EnlistAt(ixs, c, e, rolls[0 := rolls[0][e.id := e]], live);
      born := born + more;
    }
  }

  /** Someone is struck off both lists. */
  method Strike(ixs: seq<Index>, c: int, e: Employee, ghost m: Roll, ghost home: map<int, int>, ghost live: set<int>)
    returns (ghost born: set<object>)
    requires Shelf(ixs, Rolls(m, home, |ixs|), live) && home.Keys == m.Keys
    requires e.id in m && m[e.id] == e && c == home[e.id] && 0 < c < |ixs| && 0 in live && c in live
    modifies Estate(Books(ixs))
    ensures Shelf(ixs, Rolls(m - {e.id}, home - {e.id}, |ixs|), live)
    ensures fresh(born) && Estate(Books(ixs)) <= old(Estate(Books(ixs))) + born
  {
    ghost var rolls := Rolls(m, home, |ixs|);
    RollsRemove(m, home, e.id, |ixs|);
    born := DismissAt(ixs, 0, e, rolls, live);
    ghost var more := DismissAt(ixs, c, e, rolls[0 := rolls[0] - {e.id}], live);
    born := born + more;
  }

  method PayMoreAt(ixs: seq<Index>, i: int, e: Employee, raised: Employee, ghost rolls: seq<Roll>, ghost live: set<int>)
    returns (ghost born: set<object>)
    requires Shelf(ixs, rolls, live) && 0 <= i < |ixs| && i in live && e.id in rolls[i] && rolls[i][e.id] == e
    requires raised.id == e.id && raised.salary > e.salary && raised.grade == e.grade
    modifies Estate(Books(ixs))
    ensures Shelf(ixs, rolls[i := rolls[i][e.id := raised]], live)
    ensures fresh(born) && Estate(Books(ixs)) <= old(Estate(Books(ixs))) + born
  {
    born := TreeFor(ixs, i, e, rolls, live);
    ghost var more := RaiseAt(ixs, i, e, raised, rolls, live);
    born := born + more;
  }

  /** Someone gets a higher salary in both; the first salary makes the trees, where there are none. */
  method PayMore(ixs: seq<Index>, c: int, e: Employee, raised: Employee,
               ghost m: Roll, ghost home: map<int, int>, ghost live: set<int>)
    returns (ghost born: set<object>)
    requires Shelf(ixs, Rolls(m, home, |ixs|), live) && home.Keys == m.Keys
    requires e.id in m && m[e.id] == e && c == home[e.id] && 0 < c < |ixs| && 0 in live && c in live
    requires raised.id == e.id && raised.salary > e.salary && raised.grade == e.grade
    modifies Estate(Books(ixs))
    ensures Shelf(ixs, Rolls(m[e.id := raised], home, |ixs|), live)
    ensures fresh(born) && Estate(Books(ixs)) <= old(Estate(Books(ixs))) + born
  {
    ghost var rolls := Rolls(m, home, |ixs|);
    RollsUpdate(m, home, raised, |ixs|);
    born := PayMoreAt(ixs, 0, e, raised, rolls, live);
    ghost var more := PayMoreAt(ixs, c, e, raised, rolls[0 := rolls[0][e.id := raised]], live);
    born := born + more;
  }

  /** Someone who has a salary is in a tree already. */
  method TreeFor(ixs: seq<Index>, i: int, e: Employee, ghost rolls: seq<Roll>, ghost live: set<int>)
    returns (ghost born: set<object>)
    requires Shelf(ixs, rolls, live) && 0 <= i < |ixs| && i in live && e.id in rolls[i] && rolls[i][e.id] == e
    modifies Estate(Books(ixs))
    ensures Shelf(ixs, rolls, live) && ixs[i].salarySorted != null
    ensures fresh(born) && Estate(Books(ixs)) <= old(Estate(Books(ixs))) + born
  {
    born := {};
    if e.salary == 0 {
      born := EnsureTreeAt(ixs, i, rolls, live);
    } else {
      ShelfValid(ixs, rolls, live, i);
      assert IsPaid(ixs[i].staff, e.id);
    }
  }

  /** Someone is promoted in both. */
  method Advance(ixs: seq<Index>, c: int, e: Employee, bumpGrade: int,
                 ghost m: Roll, ghost home: map<int, int>, ghost live: set<int>)
    returns (ghost born: set<object>)
    requires Shelf(ixs, Rolls(m, home, |ixs|), live) && home.Keys == m.Keys && bumpGrade > 0
    requires e.id in m && m[e.id] == e && c == home[e.id] && 0 < c < |ixs| && 0 in live && c in live
    modifies Estate(Books(ixs))
    ensures Shelf(ixs, Rolls(m[e.id := Promoted(e, bumpGrade)], home, |ixs|), live)
    ensures fresh(born) && Estate(Books(ixs)) <= old(Estate(Books(ixs))) + born
  {
    ghost var rolls := Rolls(m, home, |ixs|);
    ghost var promoted := Promoted(e, bumpGrade);
    RollsUpdate(m, home, promoted, |ixs|);
    born := PromoteAt(ixs, 0, e, bumpGrade, rolls, live);
    ghost var more := PromoteAt(ixs, c, e, bumpGrade, rolls[0 := rolls[0][e.id := promoted]], live);
    born := born + more;
  }

  /** All employees of company `t` go over to company `a`. */
  method Annex(ixs: seq<Index>, a: int, t: int, ghost m: Roll, ghost home: map<int, int>, ghost live: set<int>)
    returns (ghost born: set<object>)
    requires Shelf(ixs, Rolls(m, home, |ixs|), live) && home.Keys == m.Keys
    requires 0 < a < |ixs| && 0 < t < |ixs| && a != t && a in live && t in live
    modifies Estate(Books(ixs))
    ensures Shelf(ixs, Rolls(m, Moved(home, t, a), |ixs|), live - {t})
    ensures fresh(born) && Estate(Books(ixs)) <= old(Estate(Books(ixs))) + born
  {
    RollsMoved(m, home, t, a, |ixs|);
    born := AbsorbAt(ixs, a, t, Rolls(m, home, |ixs|), live);
  }

  /** Looks an employee up in the system's own table. */
  method FindListed(ixs: seq<Index>, employeeID: int, ghost m: Roll, ghost home: map<int, int>, ghost live: set<int>)
    returns (item: HashTable.HtItem?<Employee>)
    requires Shelf(ixs, Rolls(m, home, |ixs|), live) && 0 < |ixs| && 0 in live && employeeID > 0
    ensures Shelf(ixs, Rolls(m, home, |ixs|), live) && Estate(Books(ixs)) == old(Estate(Books(ixs)))
    ensures item == null <==> employeeID !in m
    ensures item != null ==> item.data == m[employeeID] && item.data.id == employeeID
  {
    ghost var rolls, objs := Rolls(m, home, |ixs|), Estate(Books(ixs));
    ShelfValid(ixs, rolls, live, 0);
    AllAllocated(Books(ixs));
    item := ixs[0].FindEmployee(employeeID);
    assert Still(objs);
    ShelfStill(ixs, rolls, live, objs);
  }

  /** The average grade in a salary range, from one index. */
  method AverageAt(ixs: seq<Index>, i: int, lower: int, higher: int, ghost rolls: seq<Roll>, ghost live: set<int>)
    returns (res: Status, average: real)
    requires Shelf(ixs, rolls, live) && 0 <= i < |ixs| && i in live && 0 <= lower <= higher
    ensures Shelf(ixs, rolls, live) && Estate(Books(ixs)) == old(Estate(Books(ixs)))
    ensures var band := Band(rolls[i], lower, higher);
            if band.num == 0 then res == FAILURE
            else res == SUCCESS && average == band.sum as real / band.num as real
  {
    ghost var objs := Estate(Books(ixs));
    ShelfValid(ixs, rolls, live, i);
    AllAllocated(Books(ixs));
    res, average := ixs[i].AverageBumpGrade(lower, higher);
    assert Still(objs);
    ShelfStill(ixs, rolls, live, objs);
  }

  /** The grade sum of the best-paid employees of one index. */
  method TopAt(ixs: seq<Index>, i: int, m: int, ghost rolls: seq<Roll>, ghost live: set<int>)
    returns (res: Status, sum: int)
    requires Shelf(ixs, rolls, live) && 0 <= i < |ixs| && i in live && m > 0
    ensures Shelf(ixs, rolls, live) && Estate(Books(ixs)) == old(Estate(Books(ixs)))
    ensures if |Ranking(rolls[i])| < m then res == FAILURE
            else res == SUCCESS && sum == GradeSum(Last(Ranking(rolls[i]), m))
  {
    ghost var objs := Estate(Books(ixs));
    ShelfValid(ixs, rolls, live, i);
    AllAllocated(Books(ixs));
    res, sum := ixs[i].SumOfTop(m);
    assert Still(objs);
    ShelfStill(ixs, rolls, live, objs);
  }

  // ----- the start -----

  ghost predicate Blank(x: Index)
    reads x
  {
    x.staff == map[] && x.salarySorted == null && x.employees == null && Counted(x)
  }

  lemma {:induction false} BlankFamily(s: set<Index>)
    requires forall x :: x in s ==> Blank(x)
    ensures Family(s) && Estate(s) == s
  {
    forall x | x in s
      ensures Stocked(x) && Parts(x) == {x}
    {
    }
  }

  method NewIndexes(n: nat, ghost live: set<int>) returns (ixs: seq<Index>)
    ensures |ixs| == n && fresh(Estate(Books(ixs))) && Shelf(ixs, Rolls(map[], map[], |ixs|), live)
  {
    ixs := [];
    var i := 0;
    while i < n
      invariant 0 <= i <= n && |ixs| == i && fresh(ixs)
      invariant forall k :: 0 <= k < i ==> Blank(ixs[k])
      invariant forall j, k :: 0 <= j < k < i ==> ixs[j] != ixs[k]
    {
      var x := new Index(i);
      ValidParts(x);
      ixs := ixs + [x];
      i := i + 1;
    }
    BlankFamily(Books(ixs));
    ShelfBlank(ixs, live);
  }

  lemma {:induction false} ShelfBlank(ixs: seq<Index>, live: set<int>)
    requires Family(Books(ixs)) && forall i, j :: 0 <= i < j < |ixs| ==> ixs[i] != ixs[j]
    requires forall i :: 0 <= i < |ixs| ==> Blank(ixs[i])
    ensures Shelf(ixs, Rolls(map[], map[], |ixs|), live)
  {
    var rolls := Rolls(map[], map[], |ixs|);
    forall i | 0 <= i < |ixs|
      ensures HoldsAt(ixs, rolls, live, i)
    {
      assert Blank(ixs[i]);
    }
  }
}
