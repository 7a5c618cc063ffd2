/**
 * The indexes of the whole system and of all companies side by side: what is done to one of them leaves the
 * others as they are, because no two share a tree, a table or a node of either.
 */
module IndexFamily {
  import opened Staff
  import opened TreeShape
  import opened TreeLinks
  import opened RankedTree
  import HashTable
  import opened Roster
  import opened StaffIndex

  /** Everything that belongs to a table. */
  ghost function TableParts(h: Table): set<object>
    reads h
  {
    var tops: set<object>, items: set<object> := {h, h.arr}, h.items;
    tops + items
  }

  /** Everything that belongs to an index. */
  ghost function Parts(x: Index): set<object>
    reads x, x.salarySorted, x.employees
  {
    {x} + (if x.salarySorted == null then {} else {x.salarySorted} + Nodes(x.salarySorted.shape))
    + (if x.employees == null then {} else TableParts(x.employees))
  }

  /** Tree and table say the same; the counters of an absorbed company do not matter. */
  ghost predicate Stocked(x: Index)
    reads x, x.salarySorted, x.employees, Parts(x)
  {
    TableOk(x.employees, x.staff) && TreeOk(x.salarySorted, x.staff)
  }

  /** The objects whose fields say what belongs to an index. */
  ghost function Tops(s: set<Index>): set<object?>
    reads s
  {
    (set x | x in s :: x.salarySorted) + (set x | x in s :: x.employees)
  }

  ghost function Estate(s: set<Index>): set<object>
    reads s, Tops(s)
  {
    set x, o | x in s && o in Parts(x) :: o
  }

  /** Each index is in order, and no two have anything in common. */
  ghost predicate Family(s: set<Index>)
    reads s, Tops(s), Estate(s)
  {
    && (forall x :: x in s ==> Stocked(x))
    && (forall x, y :: x in s && y in s && x != y ==> Parts(x) !! Parts(y))
  }

  /** One index beside the others. */
  lemma {:induction false} TakeOne(s: set<Index>, x: Index)
    requires x in s
    ensures Family(s) <==> Stocked(x) && Parts(x) !! Estate(s - {x}) && Family(s - {x})
    ensures Estate(s) == Parts(x) + Estate(s - {x})
  {
    if Stocked(x) && Parts(x) !! Estate(s - {x}) && Family(s - {x}) {
      forall a, b | a in s && b in s && a != b
        ensures Parts(a) !! Parts(b)
      {
        assert a != x ==> Parts(a) <= Estate(s - {x});
        assert b != x ==> Parts(b) <= Estate(s - {x});
      }
    }
  }

  lemma AllAllocated(s: set<Index>)
    ensures forall o :: o in Estate(s) ==> allocated(o)
  {
    forall x | x in s {
      TreeAllocated(x.salarySorted);
    }
  }

  twostate predicate Still(objs: set<object>)
    reads objs
  {
    forall o :: o in objs ==> unchanged(o)
  }

  twostate lemma PartsStill(x: Index, new objs: set<object>)
    requires old(Parts(x)) <= objs && old(allocated(objs)) && Still(objs)
    ensures Parts(x) == old(Parts(x)) && (old(Stocked(x)) ==> Stocked(x))
  {
    assert old(x in Parts(x) && (x.salarySorted != null ==> x.salarySorted in Parts(x)));
    assert old(x.employees != null ==> x.employees in Parts(x));
  }

  twostate lemma StillFamily(s: set<Index>, new objs: set<object>)
    requires old(Family(s) && objs == Estate(s)) && old(allocated(objs)) && Still(objs)
    ensures Family(s) && Estate(s) == objs
  {
    forall x | x in s
      ensures Parts(x) == old(Parts(x)) && Stocked(x)
    {
      PartsStill(x, objs);
      assert old(Stocked(x));
    }
  }

  twostate predicate Same(x: Index)
    reads x
  {
    && x.staff == old(x.staff) && x.salarySorted == old(x.salarySorted) && x.employees == old(x.employees)
    && x.numEmpsWithSalZ == old(x.numEmpsWithSalZ) && x.sumEmpsWithSalZ == old(x.sumEmpsWithSalZ)
  }

  twostate predicate AllSame(s: set<Index>)
    reads s
  {
    forall x :: x in s ==> Same(x)
  }

  twostate lemma MembersStill(s: set<Index>, new objs: set<object>)
    requires old(objs == Estate(s)) && old(allocated(objs)) && Still(objs)
    ensures AllSame(s)
  {
    forall x | x in s
      ensures Same(x)
    {
      assert old(x in Parts(x) && x in Estate(s));
    }
  }

  /** One index has changed, and all of them are still a family. */
  twostate lemma Rejoin(s: set<Index>, new x: Index, new objs: set<object>)
    requires old(allocated(x)) && x in s && old(Family(s - {x}) && objs == Estate(s - {x}) && Parts(x) !! objs)
    requires fresh(Parts(x) - old(Parts(x))) && Stocked(x) && old(allocated(objs)) && Still(objs)
    ensures Family(s) && fresh(Estate(s) - old(Estate(s)))
  {
    StillFamily(s - {x}, objs);
    TakeOne(s, x);
  }

  /** Tree and table are the same, with new nodes at most. */
  twostate lemma PartsGrew(x: Index)
    requires x.salarySorted == old(x.salarySorted) && x.employees == old(x.employees) && x.employees != null
    requires TableGrew(x.employees) && TreeNodes(x.salarySorted) <= old(TreeNodes(x.salarySorted))
    ensures fresh(Parts(x) - old(Parts(x)))
  {
  }

  // ----- one operation on one of them -----

  method HireOne(x: Index, e: Employee) returns (res: Status)
    requires x.Valid() && x.employees != null
    requires e.id > 0 && e.salary == 0 && e.grade >= 0
    modifies Parts(x)
    ensures fresh(Parts(x) - old(Parts(x)))
    ensures x.Valid()
    ensures res == if e.id in old(x.staff) then FAILURE else SUCCESS
    ensures x.staff == if e.id in old(x.staff) then old(x.staff) else old(x.staff)[e.id := e]
  {
    hide TreeOk, TableOk, WellKept;
    TreeAllocated(x.salarySorted);
    res := x.Hire(e);
  }

  method EnsureTableOne(x: Index)
    requires x.Valid()
    modifies Parts(x)
    ensures fresh(Parts(x) - old(Parts(x)))
    ensures x.Valid() && x.employees != null && x.staff == old(x.staff)
  {
    hide TreeOk, TableOk, WellKept;
    TreeAllocated(x.salarySorted);
    x.EnsureTable();
  }

  method EnsureTreeOne(x: Index)
    requires x.Valid()
    modifies Parts(x)
    ensures fresh(Parts(x) - old(Parts(x)))
    ensures x.Valid() && x.salarySorted != null && x.staff == old(x.staff)
  {
    TreeAllocated(x.salarySorted);
    x.EnsureTree();
  }

  method DismissOne(x: Index, e: Employee)
    requires x.Valid() && e.id in x.staff && x.staff[e.id] == e
    modifies Parts(x)
    ensures fresh(Parts(x) - old(Parts(x)))
    ensures x.Valid() && x.staff == old(x.staff) - {e.id}
  {
    TreeAllocated(x.salarySorted);
    x.Dismiss(e);
    PartsGrew(x);
  }

  method RaiseOne(x: Index, e: Employee, raised: Employee)
    requires x.Valid() && x.salarySorted != null && e.id in x.staff && x.staff[e.id] == e
    requires raised.id == e.id && raised.salary > e.salary && raised.grade == e.grade
    modifies Parts(x)
    ensures fresh(Parts(x) - old(Parts(x)))
    ensures x.Valid() && x.staff == old(x.staff)[e.id := raised]
  {
    hide TreeOk, WellKept;
    TreeAllocated(x.salarySorted);
    ghost var _ := x.Raise(e, raised);
  }

  method PromoteOne(x: Index, e: Employee, bumpGrade: int)
    requires x.Valid() && e.id in x.staff && x.staff[e.id] == e && bumpGrade > 0
    modifies Parts(x)
    ensures fresh(Parts(x) - old(Parts(x)))
    ensures x.Valid() && x.staff == old(x.staff)[e.id := Promoted(e, bumpGrade)]
  {
    TreeAllocated(x.salarySorted);
    x.Promote(e, bumpGrade);
  }

  // ----- two of them -----

  twostate lemma SwallowedParts(x: Index, new y: Index, new born: set<Tnode>)
    requires old(allocated(y)) && Swallowed(x, y, born) && old(Parts(x) !! Parts(y))
    ensures forall o :: o in Parts(x) ==> o in old(Parts(x)) || (o in old(Parts(y)) && o !in Parts(y)) || fresh(o)
    ensures Parts(y) <= old(Parts(y))
  {
  }

  method AbsorbOne(x: Index, y: Index) returns (ghost born: set<Tnode>)
    requires x.Valid() && y.Valid() && Parts(x) !! Parts(y) && x.staff.Keys !! y.staff.Keys
    modifies Parts(x), Parts(y)
    ensures x.Valid() && x.staff == old(x.staff) + old(y.staff) && y.Emptied()
    ensures Swallowed(x, y, born)
  {
    born := x.Absorb(y);
  }

  /** Two indexes have changed, and all of them are still a family. */
  twostate lemma RejoinTwo(s: set<Index>, new x: Index, new y: Index, new objs: set<object>)
    requires old(allocated(x) && allocated(y) && allocated(objs)) && x in s && y in s && x != y
    requires old(Family(s - {x} - {y}) && objs == Estate(s - {x} - {y}) && (Parts(x) + Parts(y)) !! objs)
    requires forall o :: o in Parts(x) ==> o in old(Parts(x)) || (o in old(Parts(y)) && o !in Parts(y)) || fresh(o)
    requires Parts(y) <= old(Parts(y)) && old(Parts(x) !! Parts(y)) && Stocked(x) && Stocked(y) && Still(objs)
    requires forall o :: o in old(Parts(y)) ==> old(allocated(o))
    ensures Family(s)
    ensures forall o :: o in Estate(s) ==> o in old(Parts(x) + Parts(y) + objs) || fresh(o)
  {
    StillFamily(s - {x} - {y}, objs);
    TakeOne(s - {x}, y);
    assert Family(s - {x}) && Estate(s - {x}) == Parts(y) + objs;
    forall o | o in Parts(x)
      ensures o !in Estate(s - {x})
    {
      assert o in old(Parts(x)) || (o in old(Parts(y)) && o !in Parts(y)) || fresh(o);
    }
    TakeOne(s, x);
  }
}
