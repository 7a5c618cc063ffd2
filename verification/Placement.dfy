/** Which company each employee is with: how the company rolls follow from the roll of the whole system. */
module Placement {
  import opened Staff
  import opened Tally
  import opened Roster

  /** The employees whose company number is `c`. */
  ghost function Part(staff: Roll, home: map<int, int>, c: int): Roll {
    map x | x in staff && x in home && home[x] == c :: staff[x]
  }

  /** Everyone of company `from` is with `to` now. */
  ghost function Moved(home: map<int, int>, from: int, to: int): map<int, int> {
    map x | x in home :: if home[x] == from then to else home[x]
  }

  lemma {:induction false} PartAdd(staff: Roll, home: map<int, int>, e: Employee, c: int, k: int)
    requires home.Keys == staff.Keys && e.id !in staff
    ensures Part(staff[e.id := e], home[e.id := c], k) ==
            if k == c then Part(staff, home, k)[e.id := e] else Part(staff, home, k)
  {
  }

  lemma {:induction false} PartRemove(staff: Roll, home: map<int, int>, x: int, k: int)
    requires home.Keys == staff.Keys && x in staff
    ensures Part(staff - {x}, home - {x}, k) ==
            if k == home[x] then Part(staff, home, k) - {x} else Part(staff, home, k)
  {
  }

  lemma {:induction false} PartUpdate(staff: Roll, home: map<int, int>, e: Employee, k: int)
    requires home.Keys == staff.Keys && e.id in staff
    ensures Part(staff[e.id := e], home, k) ==
            if k == home[e.id] then Part(staff, home, k)[e.id := e] else Part(staff, home, k)
  {
  }

  lemma {:induction false} PartMoved(staff: Roll, home: map<int, int>, from: int, to: int, k: int)
    requires home.Keys == staff.Keys && from != to
    ensures Part(staff, Moved(home, from, to), k) ==
            if k == to then Part(staff, home, to) + Part(staff, home, from)
            else if k == from then map[] else Part(staff, home, k)
  {
  }

  /** The rolls of all indexes: the whole system first, then every company. */
  ghost function Rolls(staff: Roll, home: map<int, int>, n: nat): seq<Roll> {
    seq(n, i => if i == 0 then staff else Part(staff, home, i))
  }

  lemma {:induction false} RollsAdd(staff: Roll, home: map<int, int>, e: Employee, c: int, n: nat)
    requires home.Keys == staff.Keys && e.id !in staff && 0 < c < n
    ensures var r := Rolls(staff, home, n); var half := r[0 := r[0][e.id := e]];
            && r[0] == staff && e.id !in half[c]
            && Rolls(staff[e.id := e], home[e.id := c], n) == half[c := half[c][e.id := e]]
  {
    forall k | 0 < k < n
      ensures Part(staff[e.id := e], home[e.id := c], k) ==
              if k == c then Part(staff, home, k)[e.id := e] else Part(staff, home, k)
    {
      PartAdd(staff, home, e, c, k);
    }
  }

  lemma {:induction false} RollsRemove(staff: Roll, home: map<int, int>, x: int, n: nat)
    requires home.Keys == staff.Keys && x in staff && 0 < home[x] < n
    ensures var r := Rolls(staff, home, n); var half := r[0 := r[0] - {x}];
            && r[0] == staff && x in half[home[x]] && half[home[x]][x] == staff[x]
            && Rolls(staff - {x}, home - {x}, n) == half[home[x] := half[home[x]] - {x}]
  {
    forall k | 0 < k < n
      ensures Part(staff - {x}, home - {x}, k) ==
              if k == home[x] then Part(staff, home, k) - {x} else Part(staff, home, k)
    {
      PartRemove(staff, home, x, k);
    }
  }

  lemma {:induction false} RollsUpdate(staff: Roll, home: map<int, int>, e: Employee, n: nat)
    requires home.Keys == staff.Keys && e.id in staff && 0 < home[e.id] < n
    ensures var r, x := Rolls(staff, home, n), e.id; var half := r[0 := r[0][x := e]];
            && r[0] == staff && x in half[home[x]] && half[home[x]][x] == staff[x]
            && Rolls(staff[x := e], home, n) == half[home[x] := half[home[x]][x := e]]
  {
    forall k | 0 < k < n
      ensures Part(staff[e.id := e], home, k) ==
              if k == home[e.id] then Part(staff, home, k)[e.id := e] else Part(staff, home, k)
    {
      PartUpdate(staff, home, e, k);
    }
  }

  lemma {:induction false} RollsMoved(staff: Roll, home: map<int, int>, from: int, to: int, n: nat)
    requires home.Keys == staff.Keys && from != to && 0 < from < n && 0 < to < n
    ensures var r := Rolls(staff, home, n);
            && r[from] == Part(staff, home, from) && r[to] == Part(staff, home, to) && r[from].Keys !! r[to].Keys
            && Rolls(staff, Moved(home, from, to), n) == r[to := r[to] + r[from]][from := map[]]
  {
    forall k | 0 < k < n
      ensures Part(staff, Moved(home, from, to), k) ==
              if k == to then Part(staff, home, to) + Part(staff, home, from)
              else if k == from then map[] else Part(staff, home, k)
    {
      PartMoved(staff, home, from, to, k);
    }
  }

  // ----- groups of companies -----

  /** The leader of the group of company number `c`. */
  function LeaderOf(leader: seq<int>, c: int): int {
    if 1 <= c <= |leader| then leader[c - 1] else 0
  }

  /** The group of every employee, named by its leader. */
  ghost function GroupsOf(home: map<int, int>, leader: seq<int>): map<int, int> {
    map x | x in home :: LeaderOf(leader, home[x])
  }

  lemma {:induction false} GroupsAdd(home: map<int, int>, leader: seq<int>, x: int, c: int)
    ensures GroupsOf(home[x := c], leader) == GroupsOf(home, leader)[x := LeaderOf(leader, c)]
  {
  }

  lemma {:induction false} GroupsRemove(home: map<int, int>, leader: seq<int>, x: int)
    ensures GroupsOf(home - {x}, leader) == GroupsOf(home, leader) - {x}
  {
  }

  /** Nobody is with `from`: nobody moves. */
  lemma {:induction false} NobodyMoved(staff: Roll, home: map<int, int>, from: int, to: int)
    requires home.Keys == staff.Keys && Part(staff, home, from) == map[]
    ensures Moved(home, from, to) == home && forall x :: x in home ==> home[x] != from
  {
    forall x | x in home
      ensures home[x] != from
    {
      assert home[x] == from ==> x in Part(staff, home, from);
    }
  }

  lemma {:induction false} SomebodyMoved(staff: Roll, home: map<int, int>, from: int, to: int)
    requires home.Keys == staff.Keys && Part(staff, home, from) != map[] && from != to
    ensures Part(staff, Moved(home, from, to), to) != map[]
  {
    PartMoved(staff, home, from, to, to);
    var x := Pick(Part(staff, home, from).Keys);
    assert x in Part(staff, home, to) + Part(staff, home, from);
  }

  /** A company that leads its group holds exactly the employees of the group. */
  lemma {:induction false} PartOfGroup(staff: Roll, home: map<int, int>, leader: seq<int>, c: int)
    requires home.Keys == staff.Keys
    requires forall x :: x in home ==> (LeaderOf(leader, home[x]) == LeaderOf(leader, c) <==> home[x] == c)
    ensures Part(staff, home, c) == Part(staff, GroupsOf(home, leader), LeaderOf(leader, c))
  {
    forall x | x in home
      ensures home[x] == c <==> GroupsOf(home, leader)[x] == LeaderOf(leader, c)
    {
    }
  }
}
