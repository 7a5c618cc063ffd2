/**
 * What compression and union do to the forest, and the naive model behind it: one standing and one group
 * leader per company.
 */
module Acquisition {
  import opened Forest

  /** The naive model: for each company the leader of its group and its own standing. */
  datatype Naive = Naive(leader: seq<int>, standing: seq<real>)

  /** The group led by `ls` joins the one led by `lf`, whose members each gain the same amount. */
  ghost function Led(m: Naive, lf: int, ls: int, gain: real): Naive
    requires |m.leader| == |m.standing|
  {
    Naive(seq(|m.leader|, i requires 0 <= i < |m.leader| => if m.leader[i] == ls then lf else m.leader[i]),
          seq(|m.leader|, i requires 0 <= i < |m.leader| =>
                if m.leader[i] == lf then m.standing[i] + gain else m.standing[i]))
  }

  /** What each member of the acquiring group gains from a group whose leader is worth `worth`. */
  ghost function Premium(factor: real, worth: real): real {
    factor * worth
  }

  /** The standing of company `i`. */
  ghost function Worth(m: Naive, i: int): real {
    if 0 <= i < |m.standing| then m.standing[i] else 0.0
  }

  /** The group of `s` joins that of `f`: every member of the latter gains `factor` times the other leader's standing. */
  ghost function Acquire(m: Naive, f: int, s: int, factor: real): Naive
    requires |m.leader| == |m.standing| && 0 <= f < |m.leader| && 0 <= s < |m.leader|
  {
    if m.leader[f] == m.leader[s] then m
    else Led(m, m.leader[f], m.leader[s], Premium(factor, Worth(m, m.leader[s])))
  }

  /** One company when the group led by `ls` has joined that led by `lf`, leader and standing each on its own. */
  ghost predicate AcquiredAt(was: Naive, now: Naive, lf: int, ls: int, factor: real, k: int)
    requires |was.leader| == |was.standing| == |now.leader| == |now.standing|
    requires 0 <= k < |was.leader| && 0 <= ls < |was.leader|
  {
    && (was.leader[k] == ls ==> now.leader[k] == lf)
    && (was.leader[k] != ls ==> now.leader[k] == was.leader[k])
    && (was.leader[k] == lf ==> now.standing[k] == was.standing[k] + factor * was.standing[ls])
    && (was.leader[k] != lf ==> now.standing[k] == was.standing[k])
  }

  /** What an acquisition means for every company. */
  ghost predicate Acquired(was: Naive, now: Naive, lf: int, ls: int, factor: real) {
    && |was.leader| == |was.standing| == |now.leader| == |now.standing| && 0 <= ls < |was.leader|
    && forall k :: 0 <= k < |was.leader| ==> AcquiredAt(was, now, lf, ls, factor, k)
  }

  lemma {:induction false} AcquireSays(f: Forest, m: Naive, a: int, b: int, factor: real)
    requires Ok(f) && Refines(f, m) && In(f, a) && In(f, b) && m.leader[a] != m.leader[b]
    ensures Acquired(m, Acquire(m, a, b, factor), m.leader[a], m.leader[b], factor)
  {
    assert RefinesAt(f, m, b);
    var n := Acquire(m, a, b, factor);
    forall k | 0 <= k < |m.leader|
      ensures AcquiredAt(m, n, m.leader[a], m.leader[b], factor, k)
    {
    }
  }

  /** What the forest says of one company is what the naive model says. */
  ghost predicate RefinesAt(f: Forest, m: Naive, i: int)
    requires Ok(f) && In(f, i) && |m.leader| == |m.standing| == |f.recs|
  {
    && m.standing[i] == Standing(f, i)
    && In(f, m.leader[i]) && RootOf(f, m.leader[i]) == RootOf(f, i)
    && m.leader[i] == m.leader[RootOf(f, i)]
    && f.recs[RootOf(f, i)].unionValue == m.standing[m.leader[i]]
  }

  /** The forest implements the naive model; a root's union value is the current standing of its group's leader. */
  ghost predicate Refines(f: Forest, m: Naive)
    requires Ok(f)
  {
    |m.leader| == |m.standing| == |f.recs| && forall i :: 0 <= i < |f.recs| ==> RefinesAt(f, m, i)
  }

  /** Every stored subtree size is exact, except that those on the rest of a walk from `c` are `p` too large. */
  ghost predicate SizesOff(f: Forest, c: int, p: int)
    requires Ok(f) && In(f, c)
  {
    forall i :: 0 <= i < |f.recs| ==> SizeOff(f, c, p, i)
  }

  ghost predicate SizesExact(f: Forest)
    requires Ok(f)
  {
    forall i :: 0 <= i < |f.recs| ==> SizeAt(f, i)
  }

  ghost predicate SizeAt(f: Forest, i: int)
    requires Ok(f) && In(f, i)
  {
    f.recs[i].subNodes == |Below(f, i)|
  }

  /** Same groups, roots, standings and union values. */
  ghost predicate SameGroups(f: Forest, g: Forest)
    requires Ok(f) && Ok(g)
  {
    && |g.recs| == |f.recs| && g.rank == f.rank && g.bound == f.bound
    && forall i :: 0 <= i < |f.recs| ==> SameAt(f, g, i)
  }

  ghost predicate SameAt(f: Forest, g: Forest, i: int)
    requires Ok(f) && Ok(g) && In(f, i) && In(g, i)
  {
    && RootOf(g, i) == RootOf(f, i) && Standing(g, i) == Standing(f, i)
    && g.recs[i].unionValue == f.recs[i].unionValue
    && (f.recs[i].IsRoot() ==> g.recs[i] == f.recs[i])
    && (g.recs[i].IsRoot() ==> f.recs[i].IsRoot())
  }

  /** The forest after one turn of the compression loop at `c`, with `p` the size seen one turn earlier. */
  ghost function Shrunk(f: Forest, c: int, r: int, p: int): Forest
    requires CanMove(f, c, r)
  {
    Moved(f, c, r, Standing(f, c) - f.recs[r].value, f.recs[c].subNodes - p)
  }

  /** What a stored size is worth while a walk from `c` is under way. */
  ghost predicate SizeOff(f: Forest, c: int, p: int, i: int)
    requires Ok(f) && In(f, c) && In(f, i)
  {
    f.recs[i].subNodes == |Below(f, i)| + if i in Path(f, c) && !f.recs[i].IsRoot() then p else 0
  }

  lemma {:induction false} RootOnPath(f: Forest, c: int, i: int)
    requires Ok(f) && In(f, c) && In(f, i)
    ensures i in Path(f, c) && f.recs[i].IsRoot() <==> i == RootOf(f, c)
    decreases f.bound - f.rank[c]
  {
    if !f.recs[c].IsRoot() {
      RootOnPath(f, f.recs[c].parent, i);
    }
  }

  /** How the walk from `c` splits into `c` and the walk from its parent, before and after the turn. */
  lemma {:induction false} ShrunkPaths(f: Forest, c: int, r: int, p: int)
    requires CanMove(f, c, r)
    ensures var g := Shrunk(f, c, r, p); var q := f.recs[c].parent;
            && Ok(g) && In(g, q) && c !in Path(f, q) && Path(f, c) == {c} + Path(f, q) && Path(g, q) == Path(f, q)
  {
    var v, n, q := Standing(f, c) - f.recs[r].value, f.recs[c].subNodes - p, f.recs[c].parent;
    MovedOk(f, c, r, v, n);
    NotBack(f, c);
    OffPath(f, c, r, v, n, q);
  }

  lemma {:induction false} ShrunkSize(f: Forest, c: int, r: int, p: int, i: int)
    requires CanMove(f, c, r) && In(f, i) && SizeOff(f, c, p, c) && SizeOff(f, c, p, i)
    ensures var g := Shrunk(f, c, r, p);
            && Ok(g) && In(g, f.recs[c].parent) && SizeOff(g, f.recs[c].parent, f.recs[c].subNodes, i)
            && (f.recs[i].IsRoot() ==> |Below(g, i)| == |Below(f, i)|)
  {
    ShrunkPaths(f, c, r, p);
    RootOnPath(f, c, i);
    MovedBelow(f, c, r, Standing(f, c) - f.recs[r].value, f.recs[c].subNodes - p, i);
    assert c in Path(f, c);
  }

  lemma {:induction false} ShrunkSame(f: Forest, c: int, r: int, p: int, i: int)
    requires CanMove(f, c, r) && In(f, i)
    ensures var g := Shrunk(f, c, r, p);
            Ok(g) && SameAt(f, g, i)
  {
    var v, n := Standing(f, c) - f.recs[r].value, f.recs[c].subNodes - p;
    MovedPath(f, c, r, v, n, i);
    MovedStanding(f, c, r, v, n, i);
  }

  /** One turn of the compression loop. */
  lemma {:induction false} ShrinkStep(f: Forest, c: int, r: int, p: int)
    requires CanMove(f, c, r) && SizesOff(f, c, p) && Weighted(f)
    ensures var g := Shrunk(f, c, r, p); var q := f.recs[c].parent;
            Ok(g) && Weighted(g) && SameGroups(f, g) && In(g, q) && SizesOff(g, q, f.recs[c].subNodes)
  {
    var g := Shrunk(f, c, r, p);
    forall i | In(f, i) { ShrunkSame(f, c, r, p, i); }
    forall i | In(f, i) { ShrunkSize(f, c, r, p, i); }
    MovedOk(f, c, r, Standing(f, c) - f.recs[r].value, f.recs[c].subNodes - p);
    forall i | In(g, i)
      ensures WeightAt(g, i)
    {
      ShrunkSize(f, c, r, p, i);
      ShrunkSame(f, c, r, p, i);
      assert WeightAt(f, i);
    }
  }

  lemma {:induction false} SameGroupsTrans(f: Forest, g: Forest, h: Forest)
    requires Ok(f) && Ok(g) && Ok(h) && SameGroups(f, g) && SameGroups(g, h)
    ensures SameGroups(f, h)
  {
    forall i | In(f, i)
      ensures SameAt(f, h, i)
    {
      assert SameAt(f, g, i) && SameAt(g, h, i);
    }
  }

  /** Compression alone does not change what the naive model sees. */
  lemma {:induction false} SameGroupsRefines(f: Forest, g: Forest, m: Naive)
    requires Ok(f) && Ok(g) && SameGroups(f, g) && Refines(f, m)
    ensures Refines(g, m)
  {
    forall i | In(f, i)
      ensures RefinesAt(g, m, i)
    {
      assert RefinesAt(f, m, i);
      assert SameAt(f, g, i) && SameAt(f, g, m.leader[i]) && SameAt(f, g, RootOf(f, i));
    }
  }

  /** Half-way through a compression that started from `f`: the walk has reached `c`. */
  ghost predicate Shrinking(f: Forest, g: Forest, c: int, p: int)
    requires Ok(f) && Ok(g)
  {
    In(g, c) && Weighted(g) && SizesOff(g, c, p) && SameGroups(f, g)
  }

  lemma {:induction false} ShrinkKeeps(f: Forest, g: Forest, c: int, p: int)
    requires Ok(f) && Ok(g) && Shrinking(f, g, c, p) && !g.recs[c].IsRoot()
    ensures var h := Shrunk(g, c, RootOf(g, c), p); var q := g.recs[c].parent;
            Ok(h) && Shrinking(f, h, q, g.recs[c].subNodes) && RootOf(h, q) == RootOf(g, c)
            && h.bound == g.bound && h.rank == g.rank && g.rank[c] < g.rank[q]
  {
    ShrinkStep(g, c, RootOf(g, c), p);
    var h := Shrunk(g, c, RootOf(g, c), p);
    SameGroupsTrans(f, g, h);
    NotBack(g, c);
    MovedPath(g, c, RootOf(g, c), h.recs[c].value, h.recs[c].subNodes, g.recs[c].parent);
  }

  ghost predicate FlatAt(g: Forest, x: int, r: int) {
    In(g, x) && (x == r || g.recs[x].parent == r)
  }

  /** Half-way through a compression that started at `a` in `f`: what is not ahead any more hangs directly below the root. */
  ghost predicate Flattening(f: Forest, g: Forest, a: int, c: int)
    requires Ok(f) && Ok(g) && In(f, a) && In(g, c)
  {
    RootOf(g, c) == RootOf(f, a) && forall x :: x in Path(f, a) ==> FlatAt(g, x, RootOf(f, a)) || x in Path(g, c)
  }

  lemma {:induction false} FlattenStep(f: Forest, g: Forest, a: int, c: int, p: int)
    requires Ok(f) && Ok(g) && In(f, a) && In(g, c) && Flattening(f, g, a, c) && !g.recs[c].IsRoot()
    ensures var h := Shrunk(g, c, RootOf(g, c), p); var q := g.recs[c].parent;
            Ok(h) && In(h, q) && Flattening(f, h, a, q)
  {
    var r := RootOf(g, c);
    var h, q := Shrunk(g, c, r, p), g.recs[c].parent;
    ShrunkPaths(g, c, r, p);
    MovedPath(g, c, r, h.recs[c].value, h.recs[c].subNodes, q);
    forall x | x in Path(f, a)
      ensures FlatAt(h, x, r) || x in Path(h, q)
    {
      assert FlatAt(g, x, r) || x in Path(g, c);
    }
  }

  /** At the end every node of the old walk is at depth 1, or the root itself. */
  lemma {:induction false} FlattenEnds(f: Forest, g: Forest, a: int, c: int)
    requires Ok(f) && Ok(g) && In(f, a) && In(g, c) && Flattening(f, g, a, c) && g.recs[c].IsRoot()
    ensures forall x :: x in Path(f, a) ==> In(g, x) && Depth(g, x) <= 1
  {
    forall x | x in Path(f, a)
      ensures In(g, x) && Depth(g, x) <= 1
    {
      assert FlatAt(g, x, c) || x in Path(g, c);
    }
  }

  /** Once the walk has reached the root, every stored size is exact again, and the naive model is unchanged. */
  lemma {:induction false} ShrinkEnds(f: Forest, g: Forest, c: int, p: int, m: Naive)
    requires Ok(f) && Ok(g) && Refines(f, m) && Shrinking(f, g, c, p) && g.recs[c].IsRoot()
    ensures SizesExact(g) && Refines(g, m)
  {
    forall i | In(g, i)
      ensures SizeAt(g, i)
    {
      assert SizeOff(g, c, p, i) && Path(g, c) == {c};
    }
    SameGroupsRefines(f, g, m);
  }

  lemma {:induction false} ShrinkStarts(f: Forest, c: int)
    requires Ok(f) && In(f, c) && Weighted(f) && SizesExact(f)
    ensures Shrinking(f, f, c, 0)
  {
    forall i | In(f, i)
      ensures SizeOff(f, c, 0, i)
    {
      assert SizeAt(f, i);
    }
  }

  /** The forest after the first company's root takes in the second's: the first root survives. */
  ghost function FirstSurvives(f: Forest, rf: int, rs: int, gain: real): Forest
    requires CanJoin(f, rf, rs)
  {
    var vb := f.recs[rf].value + gain;
    Joined(f, rf, rs, vb, f.recs[rs].value - vb, f.recs[rf].unionValue + gain)
  }

  /** The same acquisition when the second company's root is the larger one and survives. */
  ghost function SecondSurvives(f: Forest, rf: int, rs: int, gain: real): Forest
    requires CanJoin(f, rf, rs)
  {
    Joined(f, rs, rf, f.recs[rs].value, f.recs[rf].value + gain - f.recs[rs].value, f.recs[rf].unionValue + gain)
  }

  /** What an acquisition does to one company: `top` is the root that survives, and only the acquirer's group gains. */
  ghost predicate Gained(f: Forest, g: Forest, rf: int, rs: int, top: int, gain: real, i: int)
    requires Ok(f) && Ok(g) && In(f, i) && In(g, i) && In(f, rf)
  {
    var r := RootOf(f, i);
    && RootOf(g, i) == (if r == rf || r == rs then top else r)
    && Standing(g, i) == (if r == rf then Standing(f, i) + gain else Standing(f, i))
    && g.recs[RootOf(g, i)].unionValue ==
         (if r == rf || r == rs then f.recs[rf].unionValue + gain else f.recs[r].unionValue)
  }

  /** `low` goes below `top`: the acquirer's group gains if values are settled as they should be. */
  lemma {:induction false} JoinedGain(f: Forest, g: Forest, rf: int, rs: int, top: int, low: int,
                                      vb: real, vs: real, ub: real, gain: real, i: int)
    requires CanJoin(f, top, low) && In(f, i) && g == Joined(f, top, low, vb, vs, ub)
    requires (top == rf && low == rs) || (top == rs && low == rf)
    requires ub == f.recs[rf].unionValue + gain
    requires vb == (if top == rf then f.recs[top].value + gain else f.recs[top].value)
    requires vs + vb == (if low == rf then f.recs[low].value + gain else f.recs[low].value)
    ensures Ok(g) && In(g, i) && Gained(f, g, rf, rs, top, gain, i)
  {
    JoinedPath(f, top, low, vb, vs, ub, i);
    JoinedStanding(f, top, low, vb, vs, ub, i);
  }

  lemma {:induction false} FirstSurvivesGain(f: Forest, rf: int, rs: int, gain: real, i: int)
    requires CanJoin(f, rf, rs) && In(f, i)
    ensures var g := FirstSurvives(f, rf, rs, gain); Ok(g) && In(g, i) && Gained(f, g, rf, rs, rf, gain, i)
  {
    var g, vb := FirstSurvives(f, rf, rs, gain), f.recs[rf].value + gain;
    JoinedGain(f, g, rf, rs, rf, rs, vb, f.recs[rs].value - vb, f.recs[rf].unionValue + gain, gain, i);
  }

  lemma {:induction false} SecondSurvivesGain(f: Forest, rf: int, rs: int, gain: real, i: int)
    requires CanJoin(f, rf, rs) && In(f, i)
    ensures var g := SecondSurvives(f, rf, rs, gain); Ok(g) && In(g, i) && Gained(f, g, rf, rs, rs, gain, i)
  {
    var g, vb := SecondSurvives(f, rf, rs, gain), f.recs[rs].value;
    JoinedGain(f, g, rf, rs, rs, rf, vb, f.recs[rf].value + gain - vb, f.recs[rf].unionValue + gain, gain, i);
  }

  /** Two companies have the same leader exactly when they hang below the same root. */
  lemma {:induction false} LeadersByRoot(f: Forest, m: Naive, i: int, j: int)
    requires Ok(f) && Refines(f, m) && In(f, i) && In(f, j)
    ensures m.leader[i] == m.leader[j] <==> RootOf(f, i) == RootOf(f, j)
  {
    assert RefinesAt(f, m, i) && RefinesAt(f, m, j);
  }

  /** The new leader of a company: where it hangs, and its new standing. */
  lemma {:induction false} AcquireLeader(f: Forest, m: Naive, rf: int, rs: int, gain: real, i: int)
    requires Ok(f) && Refines(f, m) && In(f, i) && In(f, rf) && In(f, rs) && rf != rs
    requires f.recs[rf].IsRoot() && f.recs[rs].IsRoot()
    ensures var n := Led(m, m.leader[rf], m.leader[rs], gain); var r := RootOf(f, i); var l := n.leader[i];
            && In(f, l) && RootOf(f, l) == (if r == rs then rf else r)
            && n.leader[rf] == n.leader[rs] == m.leader[rf]
            && n.leader[r] == l
            && n.standing[l] == (if r == rf || r == rs then f.recs[rf].unionValue + gain else f.recs[r].unionValue)
            && n.standing[i] == (if r == rf then Standing(f, i) + gain else Standing(f, i))
  {
    assert RefinesAt(f, m, i) && RefinesAt(f, m, rf) && RefinesAt(f, m, rs);
    var l := m.leader[i];
    assert RefinesAt(f, m, l) && RefinesAt(f, m, m.leader[rf]) && RefinesAt(f, m, RootOf(f, i));
  }

  /** Once every company has gained what it should, the forest refines the acquisition. */
  lemma {:induction false} LedRefines(f: Forest, g: Forest, m: Naive, rf: int, rs: int, top: int, gain: real)
    requires Ok(f) && Ok(g) && |g.recs| == |f.recs| && Refines(f, m) && In(f, rf) && In(f, rs) && rf != rs
    requires f.recs[rf].IsRoot() && f.recs[rs].IsRoot() && (top == rf || top == rs)
    requires forall x :: In(f, x) ==> Gained(f, g, rf, rs, top, gain, x)
    ensures Refines(g, Led(m, m.leader[rf], m.leader[rs], gain))
  {
    var n := Led(m, m.leader[rf], m.leader[rs], gain);
    forall i | In(f, i)
      ensures RefinesAt(g, n, i)
    {
      AcquireLeader(f, m, rf, rs, gain, i);
      assert Gained(f, g, rf, rs, top, gain, i);
      assert Gained(f, g, rf, rs, top, gain, n.leader[i]);
    }
  }

  lemma {:induction false} FirstSurvivesRefines(f: Forest, m: Naive, rf: int, rs: int, gain: real)
    requires CanJoin(f, rf, rs) && Refines(f, m)
    ensures var g := FirstSurvives(f, rf, rs, gain); Ok(g) && Refines(g, Led(m, m.leader[rf], m.leader[rs], gain))
  {
    var g := FirstSurvives(f, rf, rs, gain);
    FirstSurvivesGain(f, rf, rs, gain, rf);
    forall x | In(f, x)
      ensures Gained(f, g, rf, rs, rf, gain, x)
    {
      FirstSurvivesGain(f, rf, rs, gain, x);
    }
    LedRefines(f, g, m, rf, rs, rf, gain);
  }

  lemma {:induction false} SecondSurvivesRefines(f: Forest, m: Naive, rf: int, rs: int, gain: real)
    requires CanJoin(f, rf, rs) && Refines(f, m)
    ensures var g := SecondSurvives(f, rf, rs, gain); Ok(g) && Refines(g, Led(m, m.leader[rf], m.leader[rs], gain))
  {
    var g := SecondSurvives(f, rf, rs, gain);
    SecondSurvivesGain(f, rf, rs, gain, rf);
    forall x | In(f, x)
      ensures Gained(f, g, rf, rs, rs, gain, x)
    {
      SecondSurvivesGain(f, rf, rs, gain, x);
    }
    LedRefines(f, g, m, rf, rs, rs, gain);
  }

  /** The naive acquisition, read off the roots. */
  lemma {:induction false} AcquireIsLed(f: Forest, m: Naive, a: int, b: int, factor: real, gain: real)
    requires Ok(f) && Refines(f, m) && In(f, a) && In(f, b) && RootOf(f, a) != RootOf(f, b)
    requires gain == Premium(factor, f.recs[RootOf(f, b)].unionValue)
    ensures Acquire(m, a, b, factor) == Led(m, m.leader[RootOf(f, a)], m.leader[RootOf(f, b)], gain)
  {
    LeadersByRoot(f, m, a, b);
    assert RefinesAt(f, m, a) && RefinesAt(f, m, b);
  }

  /** Union keeps stored sizes exact. */
  lemma {:induction false} JoinedSizes(f: Forest, g: Forest, b: int, s: int, vb: real, vs: real, ub: real)
    requires CanJoin(f, b, s) && SizesExact(f) && g == Joined(f, b, s, vb, vs, ub)
    ensures Ok(g) && SizesExact(g)
  {
    JoinedBelow(f, b, s, vb, vs, ub, b);
    assert SizeAt(f, b) && SizeAt(f, s);
    forall x | In(f, x)
      ensures SizeAt(g, x)
    {
      assert SizeAt(f, x);
      JoinedBelow(f, b, s, vb, vs, ub, x);
    }
  }

  lemma {:induction false} FirstSizes(f: Forest, g: Forest, rf: int, rs: int, gain: real)
    requires CanJoin(f, rf, rs) && SizesExact(f) && g == FirstSurvives(f, rf, rs, gain)
    ensures Ok(g) && SizesExact(g)
  {
    var v := f.recs[rf].value + gain;
    var w := f.recs[rs].value - v;
    JoinedSizes(f, g, rf, rs, v, w, f.recs[rf].unionValue + gain);
  }

  lemma {:induction false} FirstWeighted(f: Forest, g: Forest, rf: int, rs: int, gain: real)
    requires CanJoin(f, rf, rs) && Weighted(f) && |Below(f, rs)| <= |Below(f, rf)|
    requires g == FirstSurvives(f, rf, rs, gain)
    ensures Ok(g) && Weighted(g)
  {
    var v := f.recs[rf].value + gain;
    var w := f.recs[rs].value - v;
    JoinedWeighted(f, g, rf, rs, v, w, f.recs[rf].unionValue + gain);
  }

  lemma {:induction false} SecondSizes(f: Forest, g: Forest, rf: int, rs: int, gain: real)
    requires CanJoin(f, rf, rs) && SizesExact(f) && g == SecondSurvives(f, rf, rs, gain)
    ensures Ok(g) && SizesExact(g)
  {
    var v, w := f.recs[rs].value, f.recs[rf].value + gain - f.recs[rs].value;
    JoinedSizes(f, g, rs, rf, v, w, f.recs[rf].unionValue + gain);
  }

  lemma {:induction false} SecondWeighted(f: Forest, g: Forest, rf: int, rs: int, gain: real)
    requires CanJoin(f, rf, rs) && Weighted(f) && |Below(f, rf)| <= |Below(f, rs)|
    requires g == SecondSurvives(f, rf, rs, gain)
    ensures Ok(g) && Weighted(g)
  {
    var v, w := f.recs[rs].value, f.recs[rf].value + gain - f.recs[rs].value;
    JoinedWeighted(f, g, rs, rf, v, w, f.recs[rf].unionValue + gain);
  }

  /** A root's stored size is the number of companies in its group. */
  lemma {:induction false} SizeOfGroup(f: Forest, r: int)
    requires Ok(f) && SizesExact(f) && In(f, r) && f.recs[r].IsRoot()
    ensures f.recs[r].subNodes == |Group(f, r)| == |Below(f, r)|
  {
    assert SizeAt(f, r);
    GroupIsBelow(f, r);
  }

  /**
   * What the result of a union says. 3: the two were one group already. 1: the acquirer's root survives, because
   * its group is at least as large. 2: the other root does. The members of both groups hang below the survivor
   * afterwards; every other company keeps its root.
   */
  ghost predicate Survivor(f: Forest, g: Forest, a: int, b: int, res: int)
    requires Ok(f) && Ok(g) && In(f, a) && In(f, b) && In(g, a) && In(g, b)
  {
    var rf, rs := RootOf(f, a), RootOf(f, b);
    var top := if res == 2 then rs else rf;
    && res == (if rf == rs then 3 else if |Group(f, rf)| >= |Group(f, rs)| then 1 else 2)
    && |g.recs| == |f.recs| && forall i :: 0 <= i < |f.recs| ==> NewRoot(f, g, rf, rs, top, i)
  }

  ghost predicate NewRoot(f: Forest, g: Forest, rf: int, rs: int, top: int, i: int)
    requires Ok(f) && Ok(g) && In(f, i) && In(g, i)
  {
    RootOf(g, i) == if RootOf(f, i) == rf || RootOf(f, i) == rs then top else RootOf(f, i)
  }

  /** Compression beforehand does not matter. */
  lemma {:induction false} SurvivorKept(f: Forest, g: Forest, h: Forest, a: int, b: int, res: int)
    requires Ok(f) && Ok(g) && Ok(h) && SameGroups(f, g) && In(f, a) && In(f, b) && In(h, a) && In(h, b)
    requires Survivor(g, h, a, b, res)
    ensures Survivor(f, h, a, b, res)
  {
    assert SameAt(f, g, a) && SameAt(f, g, b);
    GroupsKept(f, g, RootOf(f, a));
    GroupsKept(f, g, RootOf(f, b));
    var rf, rs := RootOf(f, a), RootOf(f, b);
    var top := if res == 2 then rs else rf;
    forall i | 0 <= i < |f.recs|
      ensures NewRoot(f, h, rf, rs, top, i)
    {
      assert SameAt(f, g, i);
      assert NewRoot(g, h, rf, rs, top, i);
    }
  }

  /** Nothing happens between companies of one group. */
  lemma {:induction false} SurvivorSame(f: Forest, a: int, b: int)
    requires Ok(f) && In(f, a) && In(f, b) && RootOf(f, a) == RootOf(f, b)
    ensures Survivor(f, f, a, b, 3)
  {
    var r := RootOf(f, a);
    forall i | 0 <= i < |f.recs|
      ensures NewRoot(f, f, r, r, r, i)
    {
    }
  }

  lemma {:induction false} GroupsKept(f: Forest, g: Forest, r: int)
    requires Ok(f) && Ok(g) && SameGroups(f, g)
    ensures Group(f, r) == Group(g, r)
  {
    forall i | In(f, i)
      ensures RootOf(f, i) == RootOf(g, i)
    {
      assert SameAt(f, g, i);
    }
  }

  /** Exact sizes, logarithmic depth, and agreement with the naive model. */
  ghost predicate Sound(f: Forest, m: Naive)
    requires Ok(f)
  {
    Weighted(f) && SizesExact(f) && Refines(f, m)
  }

  /** Union refines the naive acquisition, keeps sizes exact and paths logarithmic; here the acquirer's root survives. */
  lemma {:induction false} FirstUnion(f: Forest, g: Forest, m: Naive, a: int, b: int, factor: real, gain: real)
    requires Ok(f) && Sound(f, m) && In(f, a) && In(f, b) && RootOf(f, a) != RootOf(f, b)
    requires f.recs[RootOf(f, a)].subNodes >= f.recs[RootOf(f, b)].subNodes
    requires gain == Premium(factor, f.recs[RootOf(f, b)].unionValue)
    requires g == FirstSurvives(f, RootOf(f, a), RootOf(f, b), gain)
    ensures Ok(g) && Sound(g, Acquire(m, a, b, factor)) && |g.recs| == |f.recs| && Survivor(f, g, a, b, 1)
    ensures Acquired(m, Acquire(m, a, b, factor), m.leader[a], m.leader[b], factor)
  {
    var rf, rs := RootOf(f, a), RootOf(f, b);
    AcquireIsLed(f, m, a, b, factor, gain);
    LeadersByRoot(f, m, a, b);
    AcquireSays(f, m, a, b, factor);
    FirstSurvivesRefines(f, m, rf, rs, gain);
    SizeOfGroup(f, rf);
    SizeOfGroup(f, rs);
    FirstSizes(f, g, rf, rs, gain);
    FirstWeighted(f, g, rf, rs, gain);
    forall i | In(f, i)
      ensures NewRoot(f, g, rf, rs, rf, i)
    {
      FirstSurvivesGain(f, rf, rs, gain, i);
    }
  }

  /** The same when the other root survives: standings and leaders come out as if it had not. */
  lemma {:induction false} SecondUnion(f: Forest, g: Forest, m: Naive, a: int, b: int, factor: real, gain: real)
    requires Ok(f) && Sound(f, m) && In(f, a) && In(f, b) && RootOf(f, a) != RootOf(f, b)
    requires f.recs[RootOf(f, a)].subNodes < f.recs[RootOf(f, b)].subNodes
    requires gain == Premium(factor, f.recs[RootOf(f, b)].unionValue)
    requires g == SecondSurvives(f, RootOf(f, a), RootOf(f, b), gain)
    ensures Ok(g) && Sound(g, Acquire(m, a, b, factor)) && |g.recs| == |f.recs| && Survivor(f, g, a, b, 2)
    ensures Acquired(m, Acquire(m, a, b, factor), m.leader[a], m.leader[b], factor)
  {
    var rf, rs := RootOf(f, a), RootOf(f, b);
    AcquireIsLed(f, m, a, b, factor, gain);
    LeadersByRoot(f, m, a, b);
    AcquireSays(f, m, a, b, factor);
    SecondSurvivesRefines(f, m, rf, rs, gain);
    SizeOfGroup(f, rf);
    SizeOfGroup(f, rs);
    SecondSizes(f, g, rf, rs, gain);
    SecondWeighted(f, g, rf, rs, gain);
    forall i | In(f, i)
      ensures NewRoot(f, g, rf, rs, rs, i)
    {
      SecondSurvivesGain(f, rf, rs, gain, i);
    }
  }

  ghost function Single(i: int): Rec {
    Rec(NONE, (i + 1) as real, 1, (i + 1) as real)
  }

  /** Every company on its own, worth its own number. */
  ghost function Singletons(size: nat): Forest {
    Forest(seq(size, k => Single(k)), seq(size, k => 0), 0)
  }

  lemma {:induction false} SingletonAt(size: nat, i: int)
    requires 0 <= i < size
    ensures var f := Singletons(size);
            && Ok(f) && Below(f, i) == {i} && RootOf(f, i) == i && Standing(f, i) == (i + 1) as real
  {
    var f := Singletons(size);
    forall j | In(f, j)
      ensures Path(f, j) == {j}
    {
    }
  }

  /** At the start every company leads itself and is worth its own number. */
  lemma {:induction false} SingletonsSound(size: nat)
    ensures Ok(Singletons(size))
    ensures Sound(Singletons(size), Naive(seq(size, k => k), seq(size, k => (k + 1) as real)))
  {
    var f := Singletons(size);
    forall i | In(f, i)
      ensures WeightAt(f, i) && SizeAt(f, i)
      ensures RefinesAt(f, Naive(seq(size, k => k), seq(size, k => (k + 1) as real)), i)
    {
      SingletonAt(size, i);
    }
  }
}
