/**
 * The whole system: companies in a union-find structure, and one set of indexes for the system and for each company.
 * Every operation keeps them in step with a plain list of employees and a plain list of groups.
 */
module CompanySystem {
  import opened Staff
  import opened Tally
  import opened TreeShape
  import opened TreeLaws
  import opened TreeQueries
  import opened RankedTree
  import HashTable
  import opened Roster
  import opened Placement
  import opened StaffIndex
  import opened IndexFamily
  import opened Registry
  import F = Forest
  import A = Acquisition
  import UF = UnionFind

  /** Company `c` has not been acquired. */
  ghost predicate Leads(f: F.Forest, c: int)
    requires F.Ok(f)
  {
    1 <= c <= |f.recs| && F.RootOf(f, c - 1) == c - 1
  }

  /** The indexes in use: the system's own, and those of companies nobody has acquired. */
  ghost function Live(f: F.Forest): set<int>
    requires F.Ok(f)
  {
    {0} + set c | 1 <= c <= |f.recs| && Leads(f, c)
  }

  lemma {:induction false} SameLive(f: F.Forest, g: F.Forest)
    requires F.Ok(f) && F.Ok(g) && A.SameGroups(f, g)
    ensures Live(f) == Live(g)
  {
    forall c | 1 <= c <= |f.recs|
      ensures Leads(f, c) <==> Leads(g, c)
    {
      assert A.SameAt(f, g, c - 1);
    }
  }

  /** The objects of the indexes are none of the others. */
  lemma {:induction false} Kinds(s: set<Index>)
    ensures forall o :: o in Estate(s) ==>
              !(o is CompanyCell) && !(o is UF.Unode) && !(o is UF.UnionFind) && !(o is System)
  {
    forall x, o: object | x in s && o in Parts(x)
      ensures !(o is CompanyCell) && !(o is UF.Unode) && !(o is UF.UnionFind) && !(o is System)
    {
    }
  }

  /** No two employees share a company number, and each company number is that of a company in use. */
  ghost predicate Housed(m: Roll, live: set<int>)
    reads Cells(m)
  {
    && (forall x, y :: x in m && y in m && x != y ==> m[x].company != m[y].company)
    && forall x :: x in m ==> m[x].company.id in live && m[x].company.id > 0
  }

  lemma {:induction false} HousedNew(m: Roll, live: set<int>, e: Employee)
    requires Housed(m, live) && e.company !in Cells(m) && e.company.id in live && e.company.id > 0 && e.id !in m
    ensures Housed(m[e.id := e], live) && Numbers(m[e.id := e]) == Numbers(m)[e.id := e.company.id]
    ensures (m[e.id := e]).Keys == m.Keys + {e.id} && m[e.id := e] - {e.id} == m
  {
    forall x | x in m
      ensures m[x].company in Cells(m)
    {
    }
  }

  lemma {:induction false} HousedGone(m: Roll, live: set<int>, x: int)
    requires Housed(m, live)
    ensures Housed(m - {x}, live) && Numbers(m - {x}) == Numbers(m) - {x}
  {
  }

  lemma {:induction false} HousedChanged(m: Roll, live: set<int>, e: Employee)
    requires Housed(m, live) && e.id in m && e.company == m[e.id].company
    ensures Housed(m[e.id := e], live) && Numbers(m[e.id := e]) == Numbers(m)
  {
  }

  /** Companies in use lead different groups. */
  lemma {:induction false} LeadersApart(f: F.Forest, m: A.Naive, c: int, d: int)
    requires F.Ok(f) && A.Refines(f, m) && Leads(f, c) && Leads(f, d)
    ensures LeaderOf(m.leader, c) == LeaderOf(m.leader, d) <==> c == d
  {
    A.LeadersByRoot(f, m, c - 1, d - 1);
  }

  /** The roll of a company in use is that of its group. */
  lemma {:induction false} RollOfGroup(f: F.Forest, n: A.Naive, m: Roll, home: map<int, int>, c: int)
    requires F.Ok(f) && A.Refines(f, n) && Leads(f, c) && home.Keys == m.Keys
    requires forall x :: x in home ==> home[x] > 0 && home[x] in Live(f)
    ensures Part(m, home, c) == Part(m, GroupsOf(home, n.leader), LeaderOf(n.leader, c))
  {
    forall x | x in home
      ensures LeaderOf(n.leader, home[x]) == LeaderOf(n.leader, c) <==> home[x] == c
    {
      assert Leads(f, home[x]);
      LeadersApart(f, n, home[x], c);
    }
    PartOfGroup(m, home, n.leader, c);
  }

  twostate lemma NumbersStill(m: Roll, new objs: set<object>)
    requires old(allocated(objs) && Cells(m) <= objs) && Still(objs)
    ensures Numbers(m) == old(Numbers(m))
  {
    forall x | x in m
      ensures m[x].company.id == old(m[x].company.id)
    {
      assert m[x].company in Cells(m);
    }
  }

  /** The company that leads a group, by its number; nothing outside the union-find structure is touched. */
  method Find(uf: UF.UnionFind, companyID: int, ghost objs: set<object>) returns (c: int)
    requires uf.Valid() && 1 <= companyID <= |uf.arr| && uf !in objs && forall n :: n in uf.arr ==> n !in objs
    modifies uf`forest, uf.arr
    ensures uf.Valid() && Still(objs) && Live(uf.forest) == old(Live(uf.forest))
    ensures Leads(uf.forest, c) && c == F.RootOf(uf.forest, companyID - 1) + 1
    ensures A.SameGroups(old(uf.forest), uf.forest)
  {
    ghost var f := uf.forest;
    var node := uf.FindAssist(companyID);
    SameLive(f, uf.forest);
    assert A.SameAt(f, uf.forest, companyID - 1);
    c := node.id;
  }

  /** What an acquisition means for the companies in use: `t` is out of use, `a` stands for both groups. */
  ghost predicate Regrouped(was: seq<int>, now: seq<int>, live: set<int>, a: int, t: int, lf: int, ls: int) {
    forall h :: h in live && h > 0 ==> RegroupedAt(was, now, a, t, lf, ls, h)
  }

  ghost predicate RegroupedAt(was: seq<int>, now: seq<int>, a: int, t: int, lf: int, ls: int, h: int) {
    LeaderOf(now, if h == t then a else h) == if LeaderOf(was, h) == ls then lf else LeaderOf(was, h)
  }

  lemma {:induction false} RootLeads(f: F.Forest, i: int)
    requires F.Ok(f) && F.In(f, i)
    ensures Leads(f, F.RootOf(f, i) + 1)
  {
  }

  lemma {:induction false} LeadsAfter(f: F.Forest, g: F.Forest, i: int, j: int, res: int, top: int, low: int, c: int)
    requires F.Ok(f) && F.Ok(g) && F.In(f, i) && F.In(f, j) && F.In(g, i) && F.In(g, j) && A.Survivor(f, g, i, j, res)
    requires top == if res == 2 then F.RootOf(f, j) else F.RootOf(f, i)
    requires low == if res == 2 then F.RootOf(f, i) else F.RootOf(f, j)
    ensures |g.recs| == |f.recs| && (Leads(g, c) <==> Leads(f, c) && (c != low + 1 || top == low))
  {
    if 1 <= c <= |f.recs| {
      assert A.NewRoot(f, g, F.RootOf(f, i), F.RootOf(f, j), top, c - 1);
    }
  }

  /** An acquisition takes one company out of use. */
  lemma {:induction false} LiveAfter(f: F.Forest, g: F.Forest, i: int, j: int, res: int, top: int, low: int)
    requires F.Ok(f) && F.Ok(g) && F.In(f, i) && F.In(f, j) && F.In(g, i) && F.In(g, j) && A.Survivor(f, g, i, j, res)
    requires top == if res == 2 then F.RootOf(f, j) else F.RootOf(f, i)
    requires low == if res == 2 then F.RootOf(f, i) else F.RootOf(f, j)
    ensures Live(g) == if top == low then Live(f) else Live(f) - {low + 1}
    ensures top + 1 in Live(f) && low + 1 in Live(f)
  {
    hide F.Ok, A.Survivor, Leads;
    RootLeads(f, i);
    RootLeads(f, j);
    LeadsAfter(f, g, i, j, res, top, low, low + 1);
    forall c | 1 <= c <= |f.recs|
      ensures Leads(g, c) <==> Leads(f, c) && (c != low + 1 || top == low)
    {
      LeadsAfter(f, g, i, j, res, top, low, c);
    }
  }

  /** Whichever root survives, the members of the second group are led by the first leader afterwards. */
  lemma {:induction false} RegroupedBy(f: F.Forest, m: A.Naive, i: int, j: int, factor: real, top: int, low: int)
    requires F.Ok(f) && F.In(f, i) && F.In(f, j) && A.Refines(f, m) && F.RootOf(f, i) != F.RootOf(f, j)
    requires (top == F.RootOf(f, i) && low == F.RootOf(f, j)) || (top == F.RootOf(f, j) && low == F.RootOf(f, i))
    ensures Regrouped(m.leader, A.Acquire(m, i, j, factor).leader, Live(f), top + 1, low + 1, m.leader[i], m.leader[j])
  {
    A.LeadersByRoot(f, m, i, j);
    assert A.RefinesAt(f, m, i) && A.RefinesAt(f, m, j);
    var was, now := m.leader, A.Acquire(m, i, j, factor).leader;
    forall h | h in Live(f) && h > 0
      ensures RegroupedAt(was, now, top + 1, low + 1, was[i], was[j], h)
    {
      assert Leads(f, h);
    }
  }

  /** Groups and companies in use before and after an acquisition; result 3 means that it was refused. */
  ghost predicate United(was: seq<int>, now: seq<int>, before: set<int>, after: set<int>,
                         i: int, j: int, res: int, a: int, t: int)
    requires 0 <= i < |was| && 0 <= j < |was|
  {
    && (res == 3 <==> was[i] == was[j])
    && (res == 3 ==> after == before)
    && (res != 3 ==>
          && 0 < a && 0 < t && a != t && a in before && t in before && after == before - {t}
          && Regrouped(was, now, before, a, t, was[i], was[j]))
  }

  /** The employees of the second group are with the first afterwards, and nobody else has changed groups. */
  lemma {:induction false} GroupsMoved(home: map<int, int>, was: seq<int>, now: seq<int>, live: set<int>,
                                       a: int, t: int, lf: int, ls: int)
    requires Regrouped(was, now, live, a, t, lf, ls) && forall x :: x in home ==> home[x] in live && home[x] > 0
    ensures GroupsOf(Moved(home, t, a), now) == Moved(GroupsOf(home, was), ls, lf)
  {
    forall x | x in home
      ensures GroupsOf(Moved(home, t, a), now)[x] == Moved(GroupsOf(home, was), ls, lf)[x]
    {
      assert RegroupedAt(was, now, a, t, lf, ls, home[x]);
    }
  }

  lemma {:induction false} UnitedBy(f: F.Forest, g: F.Forest, m: A.Naive, i: int, j: int, factor: real,
                                    res: int, a: int, t: int)
    requires F.Ok(f) && F.Ok(g) && F.In(f, i) && F.In(f, j) && F.In(g, i) && F.In(g, j) && A.Refines(f, m)
    requires A.Survivor(f, g, i, j, res)
    requires a == (if res == 2 then F.RootOf(f, j) else F.RootOf(f, i)) + 1
    requires t == (if res == 2 then F.RootOf(f, i) else F.RootOf(f, j)) + 1
    ensures United(m.leader, A.Acquire(m, i, j, factor).leader, Live(f), Live(g), i, j, res, a, t)
  {
    hide F.Ok, A.NewRoot, A.Refines, Live;
    A.LeadersByRoot(f, m, i, j);
    LiveAfter(f, g, i, j, res, a - 1, t - 1);
    if res != 3 {
      RegroupedBy(f, m, i, j, factor, a - 1, t - 1);
    }
  }

  method FindTwo(uf: UF.UnionFind, companyID1: int, companyID2: int, ghost objs: set<object>)
    returns (first: int, second: int)
    requires uf.Valid() && 1 <= companyID1 <= |uf.arr| && 1 <= companyID2 <= |uf.arr|
    requires uf !in objs && forall n :: n in uf.arr ==> n !in objs
    modifies uf`forest, uf.arr
    ensures uf.Valid() && Still(objs) && Live(uf.forest) == old(Live(uf.forest))
    ensures first == F.RootOf(uf.forest, companyID1 - 1) + 1 && second == F.RootOf(uf.forest, companyID2 - 1) + 1
  {
    first := Find(uf, companyID1, objs);
    ghost var between := uf.forest;
    second := Find(uf, companyID2, objs);
    assert A.SameAt(between, uf.forest, companyID1 - 1);
  }

  /** The groups of both companies are united; `a` is the surviving company, `t` the other. */
  method Unite(uf: UF.UnionFind, companyID1: int, companyID2: int, factor: real, first: int, second: int)
    returns (res: int, a: int, t: int)
    requires uf.Valid() && 1 <= companyID1 <= |uf.arr| && 1 <= companyID2 <= |uf.arr|
    requires first == F.RootOf(uf.forest, companyID1 - 1) + 1 && second == F.RootOf(uf.forest, companyID2 - 1) + 1
    modifies uf, uf.arr
    ensures uf.Valid() && uf.naive == A.Acquire(old(uf.naive), companyID1 - 1, companyID2 - 1, factor)
    ensures United(old(uf.naive).leader, uf.naive.leader, old(Live(uf.forest)), Live(uf.forest),
                   companyID1 - 1, companyID2 - 1, res, a, t)
  {
    ghost var f, m := uf.forest, uf.naive;
    res := uf.Union(companyID1, companyID2, factor);
    a, t := first, second;
    if res == 2 {
      a, t := second, first;
    }
    UnitedBy(f, uf.forest, m, companyID1 - 1, companyID2 - 1, factor, res, a, t);
  }

  method UniteBeside(uf: UF.UnionFind, companyID1: int, companyID2: int, factor: real, ghost objs: set<object>)
    returns (res: int, a: int, t: int)
    requires uf.Valid() && 1 <= companyID1 <= |uf.arr| && 1 <= companyID2 <= |uf.arr|
    requires uf !in objs && forall n :: n in uf.arr ==> n !in objs
    modifies uf, uf.arr
    ensures uf.Valid() && uf.naive == A.Acquire(old(uf.naive), companyID1 - 1, companyID2 - 1, factor) && Still(objs)
    ensures United(old(uf.naive).leader, uf.naive.leader, old(Live(uf.forest)), Live(uf.forest),
                   companyID1 - 1, companyID2 - 1, res, a, t)
  {
    hide F.Ok, United, A.Acquire;
    var first, second := FindTwo(uf, companyID1, companyID2, objs);
    res, a, t := Unite(uf, companyID1, companyID2, factor, first, second);
  }

  /** The numbers of those in a company's table have been adjusted; nobody else had the old number. */
  twostate lemma NumbersMoved(m: Roll, new roll: Roll, new t: int, new a: int)
    requires old(allocated(roll)) && t != a && roll == Part(m, Moved(old(Numbers(m)), t, a), a)
    requires forall x, y :: x in m && y in m && x != y ==> m[x].company != m[y].company
    requires Adjusting(roll, old(Numbers(roll)), roll.Keys, t, a)
    requires forall cell :: cell in Cells(m) && cell !in Cells(roll) ==> unchanged(cell)
    ensures Numbers(m) == Moved(old(Numbers(m)), t, a)
  {
    var was := old(Numbers(m));
    forall x | x in m
      ensures m[x].company.id == Moved(was, t, a)[x]
    {
      if x in roll {
        assert AdjustedAt(roll[x].company, old(Numbers(roll))[x], x in roll.Keys, t, a);
      } else {
        assert m[x].company in Cells(m) && m[x].company !in Cells(roll);
      }
    }
  }

  lemma {:induction false} HousedMoved(m: Roll, was: map<int, int>, live: set<int>, t: int, a: int)
    requires (forall x, y :: x in m && y in m && x != y ==> m[x].company != m[y].company) && a in live && a > 0
    requires Numbers(m) == Moved(was, t, a) && forall x :: x in was ==> was[x] > 0 && (was[x] in live || was[x] == t)
    ensures Housed(m, live)
  {
    forall x | x in m
      ensures m[x].company.id in live && m[x].company.id > 0
    {
      assert Numbers(m)[x] == Moved(was, t, a)[x];
    }
  }

  /** The walk over the acquirer's table; no index is touched. */
  method AdjustIn(ixs: seq<Index>, t: int, a: int, ghost rolls: seq<Roll>, ghost live: set<int>)
    requires Shelf(ixs, rolls, live) && 0 <= a < |ixs| && a in live && rolls[a] != map[]
    modifies Cells(rolls[a])
    ensures Shelf(ixs, rolls, live) && Estate(Books(ixs)) == old(Estate(Books(ixs)))
    ensures Adjusting(rolls[a], old(Numbers(rolls[a])), rolls[a].Keys, t, a)
  {
    ghost var estate := Estate(Books(ixs));
    ShelfValid(ixs, rolls, live, a);
    Kinds(Books(ixs));
    AllAllocated(Books(ixs));
    AdjustCompanyID(ixs[a].employees, t, a, rolls[a]);
    assert Still(estate);
    ShelfStill(ixs, rolls, live, estate);
  }

  /** Everyone of company `t` is given the number of company `a`, in all copies at once. */
  method Rehouse(ixs: seq<Index>, t: int, a: int, ghost m: Roll, ghost home: map<int, int>, ghost live: set<int>)
    requires home == Numbers(m) && Shelf(ixs, Rolls(m, Moved(home, t, a), |ixs|), live)
    requires 0 < a < |ixs| && a in live && t != a && t > 0 && Housed(m, live + {t})
    requires Part(m, Moved(home, t, a), a) != map[]
    modifies Cells(m)
    ensures Shelf(ixs, Rolls(m, Moved(home, t, a), |ixs|), live) && Estate(Books(ixs)) == old(Estate(Books(ixs)))
    ensures Numbers(m) == Moved(home, t, a) && Housed(m, live)
  {
    ghost var rolls := Rolls(m, Moved(home, t, a), |ixs|);
    ghost var roll := rolls[a];
    assert roll == Part(m, Moved(home, t, a), a) && Cells(roll) <= Cells(m);
    AdjustIn(ixs, t, a, rolls, live);
    NumbersMoved(m, roll, t, a);
    HousedMoved(m, home, live, t, a);
  }

  /** The indexes of company `t` go to company `a`; `counted` says whether there is anyone to be given a new number. */
  method MergeCompanies(ixs: seq<Index>, a: int, t: int, ghost m: Roll, ghost home: map<int, int>, ghost live: set<int>)
    returns (counted: bool, ghost born: set<object>)
    requires Shelf(ixs, Rolls(m, home, |ixs|), live) && home.Keys == m.Keys
    requires 0 < a < |ixs| && 0 < t < |ixs| && a != t && a in live && t in live
    modifies Estate(Books(ixs))
    ensures counted <==> Part(m, home, t) != map[]
    ensures Shelf(ixs, Rolls(m, Moved(home, t, a), |ixs|), live - {t})
    ensures fresh(born) && Estate(Books(ixs)) <= old(Estate(Books(ixs))) + born
  {
    ShelfValid(ixs, Rolls(m, home, |ixs|), live, t);
    EmptyTable(ixs[t].employees, ixs[t].staff);
    counted := ixs[t].employees != null && ixs[t].employees.counter != 0;
    born := Annex(ixs, a, t, m, home, live);
  }

  lemma {:induction false} HousedWithout(m: Roll, live: set<int>, t: int)
    requires Housed(m, live) && forall x :: x in Numbers(m) ==> Numbers(m)[x] != t
    ensures Housed(m, live - {t})
  {
    forall x | x in m
      ensures m[x].company.id != t
    {
      assert x in Numbers(m);
    }
  }

  method RehouseIfAny(ixs: seq<Index>, counted: bool, t: int, a: int,
                      ghost m: Roll, ghost home: map<int, int>, ghost live: set<int>)
    requires home == Numbers(m) && Shelf(ixs, Rolls(m, Moved(home, t, a), |ixs|), live - {t})
    requires 0 < a < |ixs| && a in live && t in live && t > 0 && t != a && Housed(m, live)
    requires counted <==> Part(m, home, t) != map[]
    modifies Cells(m)
    ensures Shelf(ixs, Rolls(m, Moved(home, t, a), |ixs|), live - {t})
    ensures Estate(Books(ixs)) == old(Estate(Books(ixs))) && Numbers(m) == Moved(home, t, a) && Housed(m, live - {t})
  {
    if counted {
      SomebodyMoved(m, home, t, a);
      assert live - {t} + {t} == live;
      Rehouse(ixs, t, a, m, home, live - {t});
    } else {
      NobodyMoved(m, home, t, a);
      HousedWithout(m, live, t);
    }
  }

  ghost function Circle(uf: UF.UnionFind): set<object> {
    {uf as object} + (set n | n in uf.arr)
  }

  /** Nothing of the union-find structure has changed. */
  twostate lemma CompaniesStill(uf: UF.UnionFind)
    requires old(uf.Valid()) && Still(Circle(uf))
    ensures uf.Valid() && uf.forest == old(uf.forest) && uf.naive == old(uf.naive)
  {
    assert unchanged(uf);
    forall i | 0 <= i < |uf.arr|
      ensures unchanged(uf.arr[i])
    {
      assert uf.arr[i] in Circle(uf);
    }
  }

  /** Indexes and company numbers follow an acquisition; what is apart from both is not touched. */
  method Follow(ixs: seq<Index>, a: int, t: int, ghost m: Roll, ghost live: set<int>, ghost apart: set<object>)
    returns (ghost born: set<object>)
    requires Shelf(ixs, Rolls(m, Numbers(m), |ixs|), live) && Housed(m, live)
    requires 0 < a < |ixs| && 0 < t < |ixs| && a != t && a in live && t in live
    requires apart !! Estate(Books(ixs)) && apart !! Cells(m)
    modifies Estate(Books(ixs)), Cells(m)
    ensures Shelf(ixs, Rolls(m, Numbers(m), |ixs|), live - {t}) && Housed(m, live - {t})
    ensures Numbers(m) == Moved(old(Numbers(m)), t, a) && Still(apart)
    ensures fresh(born) && Estate(Books(ixs)) <= old(Estate(Books(ixs))) + born
  {
    ghost var home, cells: set<object> := Numbers(m), Cells(m);
    Kinds(Books(ixs));
    var counted;
    counted, born := MergeCompanies(ixs, a, t, m, home, live);
    assert Still(cells);
    NumbersStill(m, cells);
    RehouseIfAny(ixs, counted, t, a, m, home, live);
  }

  method FollowBeside(ixs: seq<Index>, a: int, t: int, ghost m: Roll, ghost live: set<int>, ghost uf: UF.UnionFind)
    returns (ghost born: set<object>)
    requires Shelf(ixs, Rolls(m, Numbers(m), |ixs|), live) && Housed(m, live) && uf.Valid()
    requires 0 < a < |ixs| && 0 < t < |ixs| && a != t && a in live && t in live
    modifies Estate(Books(ixs)), Cells(m)
    ensures Shelf(ixs, Rolls(m, Numbers(m), |ixs|), live - {t}) && Housed(m, live - {t})
    ensures Numbers(m) == Moved(old(Numbers(m)), t, a)
    ensures uf.Valid() && uf.forest == old(uf.forest) && uf.naive == old(uf.naive)
    ensures fresh(born) && Estate(Books(ixs)) <= old(Estate(Books(ixs))) + born
  {
    hide Shelf, Housed, Rolls, Moved;
    Kinds(Books(ixs));
    born := Follow(ixs, a, t, m, live, Circle(uf));
    CompaniesStill(uf);
  }

  /** Someone new is given a company number and listed. */
  method Register(ixs: seq<Index>, c: int, employeeID: int, grade: int,
                  ghost m: Roll, ghost home: map<int, int>, ghost live: set<int>, ghost objs: set<object>)
    returns (res: Status, e: Employee, ghost born: set<object>)
    requires Shelf(ixs, Rolls(m, home, |ixs|), live) && home.Keys == m.Keys && objs !! Estate(Books(ixs))
    requires 0 < c < |ixs| && 0 in live && c in live && employeeID > 0 && grade >= 0
    modifies Estate(Books(ixs))
    ensures Still(objs) && fresh(born) && Estate(Books(ixs)) <= old(Estate(Books(ixs))) + born
    ensures fresh(e.company) && e.company.id == c && e == Employee(employeeID, 0, grade, e.company)
    ensures res == if employeeID in m then FAILURE else SUCCESS
    ensures if employeeID in m then Shelf(ixs, Rolls(m, home, |ixs|), live)
            else Shelf(ixs, Rolls(m[employeeID := e], home[employeeID := c], |ixs|), live)
  {
    ghost var rolls, estate := Rolls(m, home, |ixs|), Estate(Books(ixs));
    AllAllocated(Books(ixs));
    var cell := new CompanyCell(c);
    assert Still(estate);
    ShelfStill(ixs, rolls, live, estate);
    e := Employee(employeeID, 0, grade, cell);
    res, born := Enlist(ixs, c, e, m, home, live);
  }

  lemma {:induction false} NobodyThere(x: Index)
    requires Stocked(x) && x.staff == map[]
    ensures TableOk(x.employees, map[]) && (x.salarySorted != null ==> x.salarySorted.Contents() == [])
  {
    if x.salarySorted != null {
      var s := x.salarySorted.Contents();
      assert s != [] ==> s[0] in s && Current(s[0], x.staff);
    }
  }

  /** Nobody comes or goes, and nobody else changes. */
  ghost predicate OnlyOne(was: Roll, now: Roll, x: int) {
    x in was && now.Keys == was.Keys && forall y :: y in was && y != x ==> now[y] == was[y]
  }

  /** Exactly one salary has grown. */
  ghost predicate PaidMore(was: Roll, now: Roll, x: int, more: int) {
    && OnlyOne(was, now, x) && now[x].salary == was[x].salary + more
    && now[x].id == was[x].id && now[x].grade == was[x].grade && now[x].company == was[x].company
  }

  /** Exactly one grade has grown. */
  ghost predicate Bumped(was: Roll, now: Roll, x: int, bump: int) {
    && OnlyOne(was, now, x) && now[x].grade == was[x].grade + bump
    && now[x].id == was[x].id && now[x].salary == was[x].salary && now[x].company == was[x].company
  }

  lemma {:induction false} PaidMoreIs(m: Roll, x: int, more: int, raised: Employee)
    requires x in m && raised == m[x].(salary := m[x].salary + more)
    ensures PaidMore(m, m[x := raised], x, more)
  {
  }

  lemma {:induction false} BumpedIs(m: Roll, x: int, bump: int)
    requires x in m
    ensures Bumped(m, m[x := Promoted(m[x], bump)], x, bump)
  {
  }

  class System {
    const companies: UF.UnionFind
    const indexes: seq<Index>
    ghost var staff: Roll

    ghost predicate Valid()
      reads this, companies, companies.arr, Cells(staff), indexes, Tops(Books(indexes)), Estate(Books(indexes))
    {
      && companies.Valid() && |indexes| == |companies.arr| + 1 && Housed(staff, Live(companies.forest))
      && Shelf(indexes, Rolls(staff, Numbers(staff), |indexes|), Live(companies.forest))
    }

    /**
     * What this means for one company: its list is that of the employees with its number. If it leads its group, table,
     * tree and counters say the same; if it has been acquired, nobody is listed anywhere in it.
     */
    lemma CompanyExact(c: int)
      requires Valid() && 0 < c < |indexes|
      ensures forall x :: x in indexes[c].staff <==> x in staff && staff[x].company.id == c
      ensures forall x :: x in indexes[c].staff ==> indexes[c].staff[x] == staff[x]
      ensures Leads(companies.forest, c) ==> indexes[c].Valid()
      ensures !Leads(companies.forest, c) ==>
                && TableOk(indexes[c].employees, map[])
                && (indexes[c].salarySorted != null ==> indexes[c].salarySorted.Contents() == [])
    {
      var rolls, live := Rolls(staff, Numbers(staff), |indexes|), Live(companies.forest);
      assert HoldsAt(indexes, rolls, live, c) && indexes[c] in Books(indexes);
      ValidParts(indexes[c]);
      if !Leads(companies.forest, c) {
        NobodyThere(indexes[c]);
      }
    }

    /** Everything the indexes are made of. */
    ghost function Files(): set<object>
      reads this, indexes, Tops(Books(indexes))
    {
      Estate(Books(indexes))
    }

    constructor (k: nat)
      ensures Valid() && staff == map[] && |companies.arr| == k
      ensures fresh(companies) && fresh(companies.arr) && fresh(Files())
      ensures companies.naive == A.Naive(seq(k, i => i), seq(k, i => (i + 1) as real))
    {
      var uf := new UF.UnionFind(k);
      var ixs := NewIndexes(k + 1, Live(uf.forest));
      ghost var objs, live := Estate(Books(ixs)), Live(uf.forest);
      AllAllocated(Books(ixs));
      label Made:
      companies, indexes, staff := uf, ixs, map[];
      new;
      assert Still@Made(objs);
      ShelfStill@Made(indexes, Rolls(map[], map[], |indexes|), live, objs);
      assert Numbers(staff) == map[];
    }

    /** What the indexes do not own. */
    ghost function Others(): set<object>
      reads this
    {
      {this, companies} + (set n | n in companies.arr) + Cells(staff)
    }

    lemma OthersApart()
      ensures Others() !! Files()
    {
      Kinds(Books(indexes));
    }

    /** Notes the new list of employees, once everything agrees with it. */
    method Record(ghost m: Roll)
      requires companies.Valid() && |indexes| == |companies.arr| + 1 && Housed(m, Live(companies.forest))
      requires Shelf(indexes, Rolls(m, Numbers(m), |indexes|), Live(companies.forest))
      modifies this`staff
      ensures Valid() && staff == m && Files() == old(Files()) && Numbers(m) == old(Numbers(m))
    {
      ghost var rolls, live, objs := Rolls(m, Numbers(m), |indexes|), Live(companies.forest), Files() + Cells(m);
      Kinds(Books(indexes));
      AllAllocated(Books(indexes));
      staff := m;
      assert Still(objs);
      ShelfStill(indexes, rolls, live, objs);
      NumbersStill(m, objs);
    }

    method FindCompany(companyID: int) returns (c: int)
      requires Valid() && 1 <= companyID <= |companies.arr|
      modifies companies`forest, companies.arr
      ensures Valid() && 0 < c < |indexes| && c in Live(companies.forest)
      ensures c == F.RootOf(companies.forest, companyID - 1) + 1
      ensures LeaderOf(companies.naive.leader, c) == companies.naive.leader[companyID - 1]
      ensures Numbers(staff) == old(Numbers(staff)) && Files() == old(Files())
    {
      hide Shelf, Rolls, Housed, F.Ok;
      ghost var home, objs := Numbers(staff), Estate(Books(indexes)) + Cells(staff);
      ghost var rolls, live := Rolls(staff, home, |indexes|), Live(companies.forest);
      Kinds(Books(indexes));
      AllAllocated(Books(indexes));
      c := Find(companies, companyID, objs);
      ShelfStill(indexes, rolls, live, objs);
      NumbersStill(staff, objs);
      assert A.RefinesAt(companies.forest, companies.naive, companyID - 1);
    }

    /** Someone new joins company `c`. */
    method Engage(c: int, employeeID: int, grade: int) returns (res: Status, ghost born: set<object>)
      requires Valid() && 0 < c < |indexes| && c in Live(companies.forest) && employeeID > 0 && grade >= 0
      modifies this`staff, Files()
      ensures Valid() && fresh(born) && Files() <= old(Files()) + born && companies.naive == old(companies.naive)
      ensures res == if employeeID in old(staff) then FAILURE else SUCCESS
      ensures res == FAILURE ==> staff == old(staff) && Numbers(staff) == old(Numbers(staff))
      ensures res == SUCCESS ==>
                && employeeID in staff && Numbers(staff) == old(Numbers(staff))[employeeID := c]
                && staff == old(staff)[employeeID := Employee(employeeID, 0, grade, staff[employeeID].company)]
    {
      ghost var home, live, objs := Numbers(staff), Live(companies.forest), Others();
      OthersApart();
      var e;
      res, e, born := Register(indexes, c, employeeID, grade, staff, home, live, objs);
      NumbersStill(staff, objs);
      if res == SUCCESS {
        HousedNew(staff, live, e);
        Record(staff[employeeID := e]);
      }
    }

    /** The group of every employee. */
    ghost function Groups(): map<int, int>
      reads this, companies, Cells(staff)
    {
      GroupsOf(Numbers(staff), companies.naive.leader)
    }

    method AddEmployee(employeeID: int, companyID: int, grade: int) returns (res: Status, ghost born: set<object>)
      requires Valid()
      modifies this`staff, companies`forest, companies.arr, Files()
      ensures Valid() && fresh(born) && Files() <= old(Files()) + born
      ensures res == if employeeID <= 0 || companyID <= 0 || grade < 0 || |companies.arr| < companyID then INVALID_INPUT
                     else if employeeID in old(staff) then FAILURE else SUCCESS
      ensures res != SUCCESS ==> staff == old(staff) && Groups() == old(Groups())
      ensures res == SUCCESS ==>
                && employeeID in staff && Groups() == old(Groups())[employeeID := companies.naive.leader[companyID - 1]]
                && staff == old(staff)[employeeID := Employee(employeeID, 0, grade, staff[employeeID].company)]
    {
      hide Shelf, Rolls, F.Ok, Housed;
      born := {};
      if employeeID <= 0 || companyID <= 0 || grade < 0 {
        return INVALID_INPUT, born;
      }
      if |companies.arr| < companyID {
        return INVALID_INPUT, born;
      }
      var c := FindCompany(companyID);
      GroupsAdd(Numbers(staff), companies.naive.leader, employeeID, c);
      res, born := Engage(c, employeeID, grade);
    }

    /** Looks an employee up in the system's own table. */
    method FindEmployee(employeeID: int) returns (item: HashTable.HtItem?<Employee>)
      requires Valid() && employeeID > 0
      ensures Valid() && Files() == old(Files()) && Numbers(staff) == old(Numbers(staff))
      ensures item == null <==> employeeID !in staff
      ensures item != null ==> item.data == staff[employeeID] && item.data.id == employeeID
    {
      ghost var home, objs := Numbers(staff), Others();
      item := FindListed(indexes, employeeID, staff, home, Live(companies.forest));
      assert Still(objs);
      NumbersStill(staff, objs);
    }

    /** Someone leaves. */
    method Discharge(e: Employee) returns (ghost born: set<object>)
      requires Valid() && e.id in staff && staff[e.id] == e
      modifies this`staff, Files()
      ensures Valid() && fresh(born) && Files() <= old(Files()) + born && companies.naive == old(companies.naive)
      ensures staff == old(staff) - {e.id} && Numbers(staff) == old(Numbers(staff)) - {e.id}
    {
      ghost var home, live, objs := Numbers(staff), Live(companies.forest), Others();
      OthersApart();
      born := Strike(indexes, e.company.id, e, staff, home, live);
      assert Still(objs);
      NumbersStill(staff, objs);
      HousedGone(staff, live, e.id);
      Record(staff - {e.id});
    }

    method RemoveEmployee(employeeID: int) returns (res: Status, ghost born: set<object>)
      requires Valid()
      modifies this`staff, Files()
      ensures Valid() && fresh(born) && Files() <= old(Files()) + born && companies.naive == old(companies.naive)
      ensures res == if employeeID <= 0 then INVALID_INPUT else if employeeID !in old(staff) then FAILURE else SUCCESS
      ensures res != SUCCESS ==> staff == old(staff) && Groups() == old(Groups())
      ensures res == SUCCESS ==> staff == old(staff) - {employeeID} && Groups() == old(Groups()) - {employeeID}
    {
      born := {};
      if employeeID <= 0 {
        return INVALID_INPUT, born;
      }
      var item := FindEmployee(employeeID);
      if item == null {
        return FAILURE, born;
      }
      GroupsRemove(Numbers(staff), companies.naive.leader, employeeID);
      born := Discharge(item.data);
      res := SUCCESS;
    }

    /** Someone is paid more. */
    method Raise(e: Employee, raised: Employee) returns (ghost born: set<object>)
      requires Valid() && e.id in staff && staff[e.id] == e
      requires raised == e.(salary := raised.salary) && raised.salary > e.salary
      modifies this`staff, Files()
      ensures Valid() && fresh(born) && Files() <= old(Files()) + born && companies.naive == old(companies.naive)
      ensures staff == old(staff)[e.id := raised] && Numbers(staff) == old(Numbers(staff))
    {
      ghost var home, live, objs := Numbers(staff), Live(companies.forest), Others();
      OthersApart();
      born := PayMore(indexes, e.company.id, e, raised, staff, home, live);
      assert Still(objs);
      NumbersStill(staff, objs);
      HousedChanged(staff, live, raised);
      Record(staff[e.id := raised]);
    }

    method EmployeeSalaryIncrease(employeeID: int, salaryIncrease: int) returns (res: Status, ghost born: set<object>)
      requires Valid()
      modifies this`staff, Files()
      ensures Valid() && fresh(born) && Files() <= old(Files()) + born && companies.naive == old(companies.naive)
      ensures res == if employeeID <= 0 || salaryIncrease <= 0 then INVALID_INPUT
                     else if employeeID !in old(staff) then FAILURE else SUCCESS
      ensures Groups() == old(Groups()) && (res != SUCCESS ==> staff == old(staff))
      ensures res == SUCCESS ==> PaidMore(old(staff), staff, employeeID, salaryIncrease)
    {
      hide Shelf, Rolls, Housed, F.Ok, PaidMore;
      born := {};
      if employeeID <= 0 || salaryIncrease <= 0 {
        return INVALID_INPUT, born;
      }
      var item := FindEmployee(employeeID);
      if item == null {
        return FAILURE, born;
      }
      var e := item.data;
      var raised := e.(salary := e.salary + salaryIncrease);
      PaidMoreIs(staff, employeeID, salaryIncrease, raised);
      born := Raise(e, raised);
      res := SUCCESS;
    }

    /** Someone is promoted. */
    method Promote(e: Employee, bumpGrade: int) returns (ghost born: set<object>)
      requires Valid() && e.id in staff && staff[e.id] == e && bumpGrade > 0
      modifies this`staff, Files()
      ensures Valid() && fresh(born) && Files() <= old(Files()) + born && companies.naive == old(companies.naive)
      ensures staff == old(staff)[e.id := Promoted(e, bumpGrade)] && Numbers(staff) == old(Numbers(staff))
    {
      ghost var home, live, objs := Numbers(staff), Live(companies.forest), Others();
      ghost var promoted := Promoted(e, bumpGrade);
      OthersApart();
      born := Advance(indexes, e.company.id, e, bumpGrade, staff, home, live);
      assert Still(objs);
      NumbersStill(staff, objs);
      HousedChanged(staff, live, promoted);
      Record(staff[e.id := promoted]);
    }

    /** A bump that is not positive is accepted and changes nothing. */
    method PromoteEmployee(employeeID: int, bumpGrade: int) returns (res: Status, ghost born: set<object>)
      requires Valid()
      modifies this`staff, Files()
      ensures Valid() && fresh(born) && Files() <= old(Files()) + born && companies.naive == old(companies.naive)
      ensures res == if employeeID <= 0 then INVALID_INPUT else if employeeID !in old(staff) then FAILURE else SUCCESS
      ensures Groups() == old(Groups()) && (res != SUCCESS || bumpGrade <= 0 ==> staff == old(staff))
      ensures res == SUCCESS && bumpGrade > 0 ==> Bumped(old(staff), staff, employeeID, bumpGrade)
    {
      hide Shelf, Rolls, Housed, F.Ok, Bumped;
      born := {};
      if employeeID <= 0 {
        return INVALID_INPUT, born;
      }
      var item := FindEmployee(employeeID);
      if item == null {
        return FAILURE, born;
      }
      if bumpGrade > 0 {
        BumpedIs(staff, employeeID, bumpGrade);
        born := Promote(item.data, bumpGrade);
      }
      res := SUCCESS;
    }

    /** Company `t` has been acquired; its employees and their numbers follow. */
    method Takeover(a: int, t: int, ghost live: set<int>) returns (ghost born: set<object>)
      requires companies.Valid() && |indexes| == |companies.arr| + 1 && Housed(staff, live)
      requires Shelf(indexes, Rolls(staff, Numbers(staff), |indexes|), live) && Live(companies.forest) == live - {t}
      requires 0 < a < |indexes| && 0 < t < |indexes| && a != t && a in live && t in live
      modifies this`staff, Files(), Cells(staff)
      ensures Valid() && fresh(born) && Files() <= old(Files()) + born && companies.naive == old(companies.naive)
      ensures staff == old(staff) && Numbers(staff) == Moved(old(Numbers(staff)), t, a)
    {
      Kinds(Books(indexes));
      born := FollowBeside(indexes, a, t, staff, live, companies);
      Record(staff);
    }

    lemma AcquisitionSays(i: int, j: int, factor: real)
      requires Valid() && 0 <= i < |companies.arr| && 0 <= j < |companies.arr|
      ensures var m := companies.naive; var now := A.Acquire(m, i, j, factor);
              |m.leader| == |m.standing| == |companies.arr|
              && if m.leader[i] == m.leader[j] then now == m else A.Acquired(m, now, m.leader[i], m.leader[j], factor)
    {
      if companies.naive.leader[i] != companies.naive.leader[j] {
        A.AcquireSays(companies.forest, companies.naive, i, j, factor);
      }
    }

    /** The companies' part of an acquisition; the indexes are as they were. */
    method Unify(companyID1: int, companyID2: int, factor: real) returns (res: int, a: int, t: int)
      requires Valid() && 1 <= companyID1 <= |companies.arr| && 1 <= companyID2 <= |companies.arr|
      modifies companies, companies.arr
      ensures companies.Valid()
      ensures res == 3 ==> companies.naive == old(companies.naive)
      ensures var leader := old(companies.naive.leader);
              && |leader| == |companies.arr|
              && (res != 3 ==> A.Acquired(old(companies.naive), companies.naive,
                                          leader[companyID1 - 1], leader[companyID2 - 1], factor))
      ensures United(old(companies.naive).leader, companies.naive.leader,
                     old(Live(companies.forest)), Live(companies.forest), companyID1 - 1, companyID2 - 1, res, a, t)
      ensures Shelf(indexes, Rolls(staff, Numbers(staff), |indexes|), old(Live(companies.forest)))
      ensures Housed(staff, old(Live(companies.forest)))
      ensures Numbers(staff) == old(Numbers(staff)) && Files() == old(Files())
    {
      hide Shelf, Rolls, F.Ok, A.Acquire, A.Acquired, Regrouped;
      AcquisitionSays(companyID1 - 1, companyID2 - 1, factor);
      ghost var objs, live := Files() + Cells(staff), Live(companies.forest);
      ghost var rolls := Rolls(staff, Numbers(staff), |indexes|);
      Kinds(Books(indexes));
      AllAllocated(Books(indexes));
      res, a, t := UniteBeside(companies, companyID1, companyID2, factor, objs);
      ShelfStill(indexes, rolls, live, objs);
      NumbersStill(staff, objs);
    }

    method AcquireCompany(companyID1: int, companyID2: int, factor: real) returns (res: Status, ghost born: set<object>)
      requires Valid()
      modifies this`staff, companies, companies.arr, Files(), Cells(staff)
      ensures Valid() && fresh(born) && Files() <= old(Files()) + born && staff == old(staff)
      ensures var leader := old(companies.naive.leader);
              if companyID1 <= 0 || companyID2 <= 0 || companyID1 == companyID2 || factor <= 0.0
                 || companyID1 > |companies.arr| || companyID2 > |companies.arr|
                 || leader[companyID1 - 1] == leader[companyID2 - 1]
              then res == INVALID_INPUT && companies.naive == old(companies.naive) && Groups() == old(Groups())
              else
                && res == SUCCESS
                && A.Acquired(old(companies.naive), companies.naive, leader[companyID1 - 1], leader[companyID2 - 1], factor)
                && Groups() == Moved(old(Groups()), leader[companyID2 - 1], leader[companyID1 - 1])
    {
      hide Shelf, Rolls, A.Acquired, A.Acquire, Regrouped, Moved, F.Ok;
      born := {};
      if companyID1 <= 0 || companyID2 <= 0 || companyID1 == companyID2 || factor <= 0.0 {
        return INVALID_INPUT, born;
      }
      if companyID1 > |companies.arr| || companyID2 > |companies.arr| {
        return INVALID_INPUT, born;
      }
      ghost var was, live, home := companies.naive.leader, Live(companies.forest), Numbers(staff);
      var unified, a, t := Unify(companyID1, companyID2, factor);
      if unified == 3 {
        return INVALID_INPUT, born;
      }
      GroupsMoved(home, was, companies.naive.leader, live, a, t, was[companyID1 - 1], was[companyID2 - 1]);
      born := Takeover(a, t, live);
      res := SUCCESS;
    }

    // ----- queries -----

    /** Whom a query is about: the employees of the group of a company, or everyone if the number is 0. */
    ghost function Team(companyID: int): Roll
      reads this, companies, Cells(staff)
    {
      if companyID == 0 then staff else Part(staff, Groups(), LeaderOf(companies.naive.leader, companyID))
    }

    /** The index to be asked. */
    method FindIndex(companyID: int) returns (i: int)
      requires Valid() && 0 <= companyID <= |companies.arr|
      modifies companies`forest, companies.arr
      ensures Valid() && 0 <= i < |indexes| && i in Live(companies.forest)
      ensures Rolls(staff, Numbers(staff), |indexes|)[i] == old(Team(companyID)) == Team(companyID)
      ensures Files() == old(Files()) && Numbers(staff) == old(Numbers(staff))
    {
      i := 0;
      if companyID != 0 {
        i := FindCompany(companyID);
        assert Leads(companies.forest, i);
        RollOfGroup(companies.forest, companies.naive, staff, Numbers(staff), i);
      }
    }

    method AverageBumpGradeBetweenSalaryByGroup(companyID: int, lowerSalary: int, higherSalary: int)
      returns (res: Status, average: real)
      requires Valid()
      modifies companies`forest, companies.arr
      ensures Valid() && Files() == old(Files()) && Groups() == old(Groups())
      ensures if companyID < 0 || lowerSalary < 0 || higherSalary < 0 || lowerSalary > higherSalary
                 || |companies.arr| < companyID
              then res == INVALID_INPUT
              else
                var band := Band(old(Team(companyID)), lowerSalary, higherSalary);
                if band.num == 0 then res == FAILURE
                else res == SUCCESS && average == band.sum as real / band.num as real
    {
      if companyID < 0 || lowerSalary < 0 || higherSalary < 0 || lowerSalary > higherSalary {
        return INVALID_INPUT, 0.0;
      }
      if |companies.arr| < companyID {
        return INVALID_INPUT, 0.0;
      }
      var i := FindIndex(companyID);
      res, average := AverageOf(i, lowerSalary, higherSalary);
    }

    method AverageOf(i: int, lower: int, higher: int) returns (res: Status, average: real)
      requires Valid() && 0 <= i < |indexes| && i in Live(companies.forest) && 0 <= lower <= higher
      ensures Valid() && Files() == old(Files()) && Numbers(staff) == old(Numbers(staff))
      ensures var band := Band(Rolls(staff, Numbers(staff), |indexes|)[i], lower, higher);
              if band.num == 0 then res == FAILURE
              else res == SUCCESS && average == band.sum as real / band.num as real
    {
      ghost var home, objs := Numbers(staff), Others();
      res, average := AverageAt(indexes, i, lower, higher, Rolls(staff, home, |indexes|), Live(companies.forest));
      assert Still(objs);
      NumbersStill(staff, objs);
    }

    method SumOfBumpGradeBetweenTopWorkersByGroup(companyID: int, m: int)
      returns (res: Status, sum: int)
      requires Valid()
      modifies companies`forest, companies.arr
      ensures Valid() && Files() == old(Files()) && Groups() == old(Groups())
      ensures if companyID < 0 || m <= 0 || |companies.arr| < companyID then res == INVALID_INPUT
              else
                var paid := Ranking(old(Team(companyID)));
                if |paid| < m then res == FAILURE else res == SUCCESS && sum == GradeSum(Last(paid, m))
    {
      if companyID < 0 || m <= 0 {
        return INVALID_INPUT, 0;
      }
      if |companies.arr| < companyID {
        return INVALID_INPUT, 0;
      }
      var i := FindIndex(companyID);
      res, sum := TopOf(i, m);
    }

    method TopOf(i: int, m: int) returns (res: Status, sum: int)
      requires Valid() && 0 <= i < |indexes| && i in Live(companies.forest) && m > 0
      ensures Valid() && Files() == old(Files()) && Numbers(staff) == old(Numbers(staff))
      ensures var paid := Ranking(Rolls(staff, Numbers(staff), |indexes|)[i]);
              if |paid| < m then res == FAILURE else res == SUCCESS && sum == GradeSum(Last(paid, m))
    {
      ghost var home, objs := Numbers(staff), Others();
      res, sum := TopAt(indexes, i, m, Rolls(staff, home, |indexes|), Live(companies.forest));
      assert Still(objs);
      NumbersStill(staff, objs);
    }

    /** A company's value: its standing in the naive model. */
    method CompanyValue(companyID: int) returns (res: Status, standing: real)
      requires Valid()
      ensures Valid() && Files() == old(Files()) && Numbers(staff) == old(Numbers(staff))
      ensures if companyID <= 0 || companyID > |companies.arr| then res == INVALID_INPUT
              else res == SUCCESS && standing == companies.naive.standing[companyID - 1]
    {
      if companyID <= 0 || companyID > |companies.arr| {
        return INVALID_INPUT, 0.0;
      }
      ghost var objs, live := Files() + Cells(staff), Live(companies.forest);
      ghost var rolls := Rolls(staff, Numbers(staff), |indexes|);
      AllAllocated(Books(indexes));
      standing := companies.CompanyStanding(companyID);
      assert Still(objs);
      ShelfStill(indexes, rolls, live, objs);
      NumbersStill(staff, objs);
      res := SUCCESS;
    }

    /** A system of `k` companies, each on its own and worth its own number, with nobody employed. */
    static method Init(k: int) returns (ds: System?)
      ensures ds == null <==> k < 1
      ensures ds != null ==> ds.Valid() && ds.staff == map[] && |ds.companies.arr| == k
      ensures ds != null ==> ds.companies.naive == A.Naive(seq(k, i => i), seq(k, i => (i + 1) as real))
      ensures ds != null ==> fresh(ds) && fresh(ds.companies) && fresh(ds.companies.arr) && fresh(ds.Files())
    {
      if k < 1 {
        return null;
      }
      ds := new System(k);
    }
  }
}
