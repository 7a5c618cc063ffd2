/**
 * The upside-down trees of the union-find structure, as a value.
 * `rank` and `bound` are bookkeeping that the program does not store: ranks grow strictly towards the
 * root, which makes every walk along parents terminate, whatever compression has done.
 */
module Forest {

  /** One node: the index of its parent (or `None`), its value, its stored subtree size, its union value. */
  datatype Rec = Rec(parent: int, value: real, subNodes: int, unionValue: real) {
    predicate IsRoot() { parent == NONE }
  }

  const NONE := -1

  datatype Forest = Forest(recs: seq<Rec>, rank: seq<nat>, bound: nat)

  ghost predicate Ok(f: Forest) {
    && |f.rank| == |f.recs|
    && (forall i :: 0 <= i < |f.rank| ==> f.rank[i] <= f.bound)
    && forall i {:trigger f.recs[i]} :: 0 <= i < |f.recs| && !f.recs[i].IsRoot() ==>
         0 <= f.recs[i].parent < |f.recs| && f.rank[i] < f.rank[f.recs[i].parent]
  }

  ghost predicate In(f: Forest, i: int) {
    0 <= i < |f.recs|
  }

  // ----- walks along parents -----

  ghost function RootOf(f: Forest, i: int): (r: int)
    requires Ok(f) && In(f, i)
    ensures In(f, r) && f.recs[r].IsRoot() && f.rank[i] <= f.rank[r]
    decreases f.bound - f.rank[i]
  {
    if f.recs[i].IsRoot() then i else RootOf(f, f.recs[i].parent)
  }

  /** A company's standing: the sum of the values on its parent path, its own and the root's included. */
  ghost function Standing(f: Forest, i: int): real
    requires Ok(f) && In(f, i)
    decreases f.bound - f.rank[i]
  {
    f.recs[i].value + if f.recs[i].IsRoot() then 0.0 else Standing(f, f.recs[i].parent)
  }

  ghost function Depth(f: Forest, i: int): nat
    requires Ok(f) && In(f, i)
    decreases f.bound - f.rank[i]
  {
    if f.recs[i].IsRoot() then 0 else 1 + Depth(f, f.recs[i].parent)
  }

  ghost function Path(f: Forest, i: int): (p: set<int>)
    requires Ok(f) && In(f, i)
    ensures i in p && forall x :: x in p ==> In(f, x)
    decreases f.bound - f.rank[i]
  {
    {i} + if f.recs[i].IsRoot() then {} else Path(f, f.recs[i].parent)
  }

  /** The nodes whose path goes through `x`. */
  ghost function Below(f: Forest, x: int): set<int>
    requires Ok(f)
  {
    set j | 0 <= j < |f.recs| && x in Path(f, j)
  }

  lemma {:induction false} PathFacts(f: Forest, i: int)
    requires Ok(f) && In(f, i)
    ensures RootOf(f, i) in Path(f, i)
    ensures forall x :: x in Path(f, i) ==>
              RootOf(f, x) == RootOf(f, i) && Path(f, x) <= Path(f, i) && (x == i || f.rank[i] < f.rank[x])
    decreases f.bound - f.rank[i]
  {
    if !f.recs[i].IsRoot() {
      PathFacts(f, f.recs[i].parent);
    }
  }

  // ----- depth -----

  function Pow2(n: nat): nat {
    if n == 0 then 1 else 2 * Pow2(n - 1)
  }

  lemma {:induction false} Pow2Monotone(m: nat, n: nat)
    requires m <= n
    ensures Pow2(m) <= Pow2(n)
  {
    if m < n {
      Pow2Monotone(m, n - 1);
    }
  }

  lemma {:induction false} DepthWithinRank(f: Forest, i: int)
    requires Ok(f) && In(f, i)
    ensures Depth(f, i) + f.rank[i] <= f.rank[RootOf(f, i)]
    decreases f.bound - f.rank[i]
  {
    if !f.recs[i].IsRoot() {
      DepthWithinRank(f, f.recs[i].parent);
    }
  }

  /** The members of a group, named by its root. */
  ghost function Group(f: Forest, r: int): set<int>
    requires Ok(f)
  {
    set j | 0 <= j < |f.recs| && RootOf(f, j) == r
  }

  lemma {:induction false} GroupIsBelow(f: Forest, r: int)
    requires Ok(f) && In(f, r) && f.recs[r].IsRoot()
    ensures Group(f, r) == Below(f, r)
  {
    forall j | 0 <= j < |f.recs|
      ensures RootOf(f, j) == r <==> r in Path(f, j)
    {
      PathFacts(f, j);
    }
  }

  /** Union by size keeps every group at least exponential in the rank of its root. */
  ghost predicate Weighted(f: Forest)
    requires Ok(f)
  {
    forall r :: 0 <= r < |f.recs| ==> WeightAt(f, r)
  }

  ghost predicate WeightAt(f: Forest, r: int)
    requires Ok(f) && In(f, r)
  {
    f.recs[r].IsRoot() ==> Pow2(f.rank[r]) <= |Below(f, r)|
  }

  /** A node at depth `d` lies in a group of at least 2 to the power `d` members: paths are logarithmic. */
  lemma {:induction false} DepthIsLogarithmic(f: Forest, i: int)
    requires Ok(f) && Weighted(f) && In(f, i)
    ensures Pow2(Depth(f, i)) <= |Group(f, RootOf(f, i))|
  {
    assert WeightAt(f, RootOf(f, i));
    DepthWithinRank(f, i);
    Pow2Monotone(Depth(f, i), f.rank[RootOf(f, i)]);
    GroupIsBelow(f, RootOf(f, i));
  }

  // ----- compression, one node at a time -----

  /** Node `c` is hung directly below `r`, with a new value and a new stored size. */
  ghost function Moved(f: Forest, c: int, r: int, value: real, subNodes: int): Forest
    requires In(f, c)
  {
    f.(recs := f.recs[c := f.recs[c].(parent := r, value := value, subNodes := subNodes)])
  }

  ghost predicate CanMove(f: Forest, c: int, r: int) {
    Ok(f) && In(f, c) && !f.recs[c].IsRoot() && r == RootOf(f, c)
  }

  lemma {:induction false} MovedOk(f: Forest, c: int, r: int, value: real, subNodes: int)
    requires CanMove(f, c, r)
    ensures Ok(Moved(f, c, r, value, subNodes)) && f.rank[c] < f.rank[r]
  {
    assert f.rank[f.recs[c].parent] <= f.rank[RootOf(f, f.recs[c].parent)];
  }

  /** The path after a move: whoever passed `c` now skips everything between `c` and the root. */
  lemma {:induction false} MovedPath(f: Forest, c: int, r: int, value: real, subNodes: int, i: int)
    requires CanMove(f, c, r) && In(f, i)
    ensures var g := Moved(f, c, r, value, subNodes);
            && Ok(g) && RootOf(g, i) == RootOf(f, i)
            && Path(g, i) == if c in Path(f, i) then Path(f, i) - Path(f, c) + {c, r} else Path(f, i)
    decreases f.bound - f.rank[i]
  {
    MovedOk(f, c, r, value, subNodes);
    PathFacts(f, i);
    PathFacts(f, c);
    var g := Moved(f, c, r, value, subNodes);
    if i == c {
      assert RootOf(g, r) == r && Path(g, r) == {r};
      assert Path(g, c) == {c} + Path(g, r);
    } else if !f.recs[i].IsRoot() {
      var p := f.recs[i].parent;
      MovedPath(f, c, r, value, subNodes, p);
      if c in Path(f, p) {
        assert i !in Path(f, c);
      }
    }
  }

  /** A walk never comes back. */
  lemma {:induction false} NotBack(f: Forest, c: int)
    requires Ok(f) && In(f, c) && !f.recs[c].IsRoot()
    ensures c !in Path(f, f.recs[c].parent)
  {
    PathFacts(f, f.recs[c].parent);
  }

  /** A walk that avoids the moved node is as it was. */
  lemma {:induction false} OffPath(f: Forest, c: int, r: int, value: real, subNodes: int, i: int)
    requires CanMove(f, c, r) && In(f, i) && c !in Path(f, i)
    ensures Ok(Moved(f, c, r, value, subNodes)) && Path(Moved(f, c, r, value, subNodes), i) == Path(f, i)
  {
    MovedPath(f, c, r, value, subNodes, i);
  }

  lemma {:induction false} MovedStanding(f: Forest, c: int, r: int, value: real, subNodes: int, i: int)
    requires CanMove(f, c, r) && In(f, i) && value == Standing(f, c) - f.recs[r].value
    ensures Ok(Moved(f, c, r, value, subNodes))
    ensures Standing(Moved(f, c, r, value, subNodes), i) == Standing(f, i)
    decreases f.bound - f.rank[i]
  {
    MovedOk(f, c, r, value, subNodes);
    var g := Moved(f, c, r, value, subNodes);
    if i == c {
      assert Standing(g, r) == f.recs[r].value;
    } else if !f.recs[i].IsRoot() {
      MovedStanding(f, c, r, value, subNodes, f.recs[i].parent);
    }
  }

  /** Which paths go through `x` after a move. */
  lemma {:induction false} MovedThrough(f: Forest, c: int, r: int, value: real, subNodes: int, x: int, j: int)
    requires CanMove(f, c, r) && In(f, x) && In(f, j)
    ensures var g := Moved(f, c, r, value, subNodes);
            && Ok(g)
            && (x in Path(g, j) <==> x in Path(f, j) && !(c in Path(f, j) && x in Path(f, c) && x != c && x != r))
    ensures x in Path(f, c) && c in Path(f, j) ==> x in Path(f, j)
  {
    PathFacts(f, c);
    PathFacts(f, j);
    MovedPath(f, c, r, value, subNodes, j);
  }

  /** What `x` loses when `c` moves: all that was below `c`, if `x` lies strictly between `c` and the root. */
  ghost function Lost(f: Forest, c: int, r: int, x: int): set<int>
    requires CanMove(f, c, r)
  {
    if x in Path(f, c) && x != c && x != r then Below(f, c) else {}
  }

  lemma {:induction false} MovedBelowSet(f: Forest, c: int, r: int, value: real, subNodes: int, x: int)
    requires CanMove(f, c, r) && In(f, x)
    ensures var g := Moved(f, c, r, value, subNodes);
            Ok(g) && Below(g, x) == Below(f, x) - Lost(f, c, r, x) && Lost(f, c, r, x) <= Below(f, x)
  {
    MovedOk(f, c, r, value, subNodes);
    var g := Moved(f, c, r, value, subNodes);
    forall j | In(f, j)
      ensures x in Path(g, j) <==> x in Path(f, j) && !(c in Path(f, j) && x in Path(f, c) && x != c && x != r)
      ensures x in Path(f, c) && c in Path(f, j) ==> x in Path(f, j)
    {
      MovedThrough(f, c, r, value, subNodes, x, j);
    }
  }

  /** Exactly the nodes strictly between `c` and the root lose a part of their subtrees: what was below `c`. */
  lemma {:induction false} MovedBelow(f: Forest, c: int, r: int, value: real, subNodes: int, x: int)
    requires CanMove(f, c, r) && In(f, x)
    ensures var g := Moved(f, c, r, value, subNodes);
            && Ok(g)
            && |Below(g, x)| == if x in Path(f, c) && x != c && x != r then |Below(f, x)| - |Below(f, c)| else |Below(f, x)|
  {
    MovedBelowSet(f, c, r, value, subNodes, x);
  }

  // ----- union of two roots -----

  /** Root `s` is hung below root `b`; both may get new values, and `b` a new union value. */
  ghost function Joined(f: Forest, b: int, s: int, vb: real, vs: real, ub: real): Forest
    requires In(f, b) && In(f, s) && b != s && |f.rank| == |f.recs|
  {
    var rb := f.recs[b].(value := vb, subNodes := f.recs[b].subNodes + f.recs[s].subNodes, unionValue := ub);
    var rs := f.recs[s].(value := vs, parent := b);
    Forest(f.recs[b := rb][s := rs],
           f.rank[b := if f.rank[b] > f.rank[s] then f.rank[b] else f.rank[s] + 1], f.bound + 1)
  }

  ghost predicate CanJoin(f: Forest, b: int, s: int) {
    Ok(f) && In(f, b) && In(f, s) && b != s && f.recs[b].IsRoot() && f.recs[s].IsRoot()
  }

  lemma {:induction false} JoinedPath(f: Forest, b: int, s: int, vb: real, vs: real, ub: real, i: int)
    requires CanJoin(f, b, s) && In(f, i)
    ensures var g := Joined(f, b, s, vb, vs, ub);
            && Ok(g)
            && RootOf(g, i) == (if RootOf(f, i) == s then b else RootOf(f, i))
            && Path(g, i) == (if RootOf(f, i) == s then Path(f, i) + {b} else Path(f, i))
    decreases f.bound - f.rank[i]
  {
    var g := Joined(f, b, s, vb, vs, ub);
    assert RootOf(g, b) == b && Path(g, b) == {b};
    if !f.recs[i].IsRoot() {
      JoinedPath(f, b, s, vb, vs, ub, f.recs[i].parent);
    } else if i == s {
      assert RootOf(g, s) == b && Path(g, s) == {s} + Path(g, b);
    }
  }

  lemma {:induction false} JoinedStanding(f: Forest, b: int, s: int, vb: real, vs: real, ub: real, i: int)
    requires CanJoin(f, b, s) && In(f, i)
    ensures var g := Joined(f, b, s, vb, vs, ub); var r := RootOf(f, i);
            && Ok(g)
            && Standing(g, i) == Standing(f, i) - f.recs[r].value
                                 + (if r == s then vs + vb else if r == b then vb else f.recs[r].value)
    decreases f.bound - f.rank[i]
  {
    var g := Joined(f, b, s, vb, vs, ub);
    assert Standing(g, b) == vb;
    if !f.recs[i].IsRoot() {
      JoinedStanding(f, b, s, vb, vs, ub, f.recs[i].parent);
    } else if i == s {
      assert Standing(g, s) == vs + Standing(g, b);
    }
  }

  lemma {:induction false} JoinedBelow(f: Forest, b: int, s: int, vb: real, vs: real, ub: real, x: int)
    requires CanJoin(f, b, s) && In(f, x)
    ensures var g := Joined(f, b, s, vb, vs, ub);
            && Ok(g)
            && |Below(g, x)| == |Below(f, x)| + (if x == b then |Below(f, s)| else 0)
  {
    var g := Joined(f, b, s, vb, vs, ub);
    forall j | In(f, j)
      ensures x in Path(g, j) <==> x in Path(f, j) || (x == b && s in Path(f, j))
      ensures !(b in Path(f, j) && s in Path(f, j))
    {
      JoinedPath(f, b, s, vb, vs, ub, j);
      PathFacts(f, j);
    }
    assert Ok(g) by { JoinedPath(f, b, s, vb, vs, ub, b); }
    if x == b {
      assert Below(g, b) == Below(f, b) + Below(f, s);
      assert Below(f, b) !! Below(f, s);
    } else {
      assert Below(g, x) == Below(f, x);
    }
  }

  /** Hanging the smaller group below the larger keeps the weights. */
  lemma {:induction false} JoinedWeighted(f: Forest, g: Forest, b: int, s: int, vb: real, vs: real, ub: real)
    requires CanJoin(f, b, s) && Weighted(f) && |Below(f, s)| <= |Below(f, b)| && g == Joined(f, b, s, vb, vs, ub)
    ensures Ok(g) && Weighted(g)
  {
    JoinedBelow(f, b, s, vb, vs, ub, b);
    assert WeightAt(f, b) && WeightAt(f, s);
    forall r | In(g, r)
      ensures WeightAt(g, r)
    {
      JoinedBelow(f, b, s, vb, vs, ub, r);
      assert WeightAt(f, r);
      assert Pow2(f.rank[s] + 1) == 2 * Pow2(f.rank[s]);
    }
  }
}
