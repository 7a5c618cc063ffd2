/**
 * Weighted union-find with path compression, in place. The array of node pointers is written once, by the
 * constructor, so it is a constant sequence here; all state that changes lives in the nodes.
 */
module UnionFind {
  import opened Forest
  import opened Acquisition

  class Unode {
    const id: int
    var subNodes: int
    var value: real
    var parent: Unode?
    var rootFlag: bool
    var unionValue: real

    constructor (id: int)
      ensures this.id == id && subNodes == 1 && value == id as real && unionValue == id as real
      ensures parent == null && rootFlag
    {
      this.id := id;
      subNodes, value, parent, rootFlag, unionValue := 1, id as real, null, true, id as real;
    }

    predicate IsBigger(s: Unode)
      reads this, s
    {
      subNodes >= s.subNodes
    }

    method MergeTrees(s: Unode)
      requires s != this
      modifies this, s
      ensures !s.rootFlag && s.parent == this && rootFlag && subNodes == old(subNodes) + old(s.subNodes)
      ensures value == old(value) && parent == old(parent) && unionValue == old(unionValue)
      ensures s.value == old(s.value) && s.subNodes == old(s.subNodes) && s.unionValue == old(s.unionValue)
    {
      s.rootFlag := false;
      subNodes := subNodes + s.subNodes;
      s.parent := this;
      rootFlag := true;
    }
  }

  /** Node `n` stores what `rec` says. */
  ghost predicate Stores(arr: seq<Unode>, n: Unode, rec: Rec)
    reads n
  {
    && n.value == rec.value && n.subNodes == rec.subNodes && n.unionValue == rec.unionValue
    && n.rootFlag == rec.IsRoot()
    && n.parent == if 0 <= rec.parent < |arr| then arr[rec.parent] else null
  }

  class UnionFind {
    const arr: seq<Unode>
    ghost var forest: Forest
    ghost var naive: Naive

    /** The nodes in the array are the forest. */
    ghost predicate Linked()
      reads this, arr
    {
      && |arr| == |forest.recs| && Ok(forest)
      && (forall i :: 0 <= i < |arr| ==> arr[i].id == i + 1)
      && (forall i {:trigger forest.recs[i]} :: 0 <= i < |arr| ==> Stores(arr, arr[i], forest.recs[i]))
    }

    /** Exact sizes, logarithmic depth, and agreement with the naive model. */
    ghost predicate Valid()
      reads this, arr
    {
      Linked() && Sound(forest, naive)
    }

    constructor (size: nat)
      ensures Valid() && |arr| == size && fresh(arr)
      ensures naive == Naive(seq(size, i => i), seq(size, i => (i + 1) as real))
    {
      var nodes: seq<Unode> := [];
      var i := 0;
      while i < size
        invariant 0 <= i <= size && |nodes| == i
        invariant forall k :: 0 <= k < i ==>
                    fresh(nodes[k]) && nodes[k].id == k + 1 && Stores([], nodes[k], Single(k))
      {
        var n := new Unode(i + 1);
        nodes := nodes + [n];
        i := i + 1;
      }
      arr := nodes;
      forest := Singletons(size);
      naive := Naive(seq(size, k => k), seq(size, k => (k + 1) as real));
      SingletonsSound(size);
    }

    /** The sum of the values from `curr` up to, but not including, its root. */
    method ValueAbove(curr: Unode, ghost c: int) returns (newValue: real)
      requires Linked() && In(forest, c) && curr == arr[c] && !curr.rootFlag
      ensures newValue == Standing(forest, c) - forest.recs[RootOf(forest, c)].value
    {
      var tmp := curr.parent;
      newValue := curr.value;
      ghost var t := forest.recs[c].parent;
      assert Stores(arr, arr[c], forest.recs[c]);
      while !tmp.rootFlag
        invariant In(forest, t) && tmp == arr[t] && RootOf(forest, t) == RootOf(forest, c)
        invariant newValue + Standing(forest, t) == Standing(forest, c)
        decreases forest.bound - forest.rank[t]
      {
        assert Stores(arr, arr[t], forest.recs[t]);
        newValue := newValue + tmp.value;
        tmp := tmp.parent;
        t := forest.recs[t].parent;
      }
      assert Stores(arr, arr[t], forest.recs[t]);
    }

    /** One turn of the compression loop: `curr` is hung directly below the root. */
    method ShrinkTurn(root: Unode, curr: Unode, pSize: int, ghost c: int) returns (parent: Unode, curSize: int)
      requires Linked() && In(forest, c) && curr == arr[c] && !curr.rootFlag && root == arr[RootOf(forest, c)]
      modifies this`forest, curr
      ensures Linked() && CanMove(old(forest), c, RootOf(old(forest), c))
      ensures forest == Shrunk(old(forest), c, RootOf(old(forest), c), pSize)
      ensures parent == arr[old(forest).recs[c].parent] && curSize == old(forest).recs[c].subNodes
    {
      ghost var r := RootOf(forest, c);
      assert Stores(arr, arr[c], forest.recs[c]);
      parent := curr.parent;
      var newValue := ValueAbove(curr, c);
      MovedOk(forest, c, r, newValue, forest.recs[c].subNodes - pSize);
      curr.parent := root;
      curr.value := newValue;
      curSize := curr.subNodes;
      curr.subNodes := curSize - pSize;
      forest := Shrunk(forest, c, r, pSize);
    }

    /** The compression loop: it ends with the walk at the root. */
    method ShrinkLoop(root: Unode, id: int) returns (ghost c: int, pSize: int)
      requires Linked() && 1 <= id <= |arr| && root == arr[RootOf(forest, id - 1)]
      requires Shrinking(forest, forest, id - 1, 0)
      modifies this`forest, arr
      ensures Linked() && Ok(old(forest)) && Shrinking(old(forest), forest, c, pSize) && forest.recs[c].IsRoot()
      ensures Flattening(old(forest), forest, id - 1, c)
    {
      c := id - 1;
      var curr := arr[id - 1];
      pSize := 0;
      while !curr.rootFlag
        invariant Linked() && Shrinking(old(forest), forest, c, pSize)
        invariant curr == arr[c] && root == arr[RootOf(forest, c)] && Flattening(old(forest), forest, id - 1, c)
        decreases forest.bound - forest.rank[c]
      {
        ghost var before := forest;
        assert Stores(arr, arr[c], before.recs[c]);
        ShrinkKeeps(old(forest), before, c, pSize);
        FlattenStep(old(forest), before, id - 1, c, pSize);
        curr, pSize := ShrinkTurn(root, curr, pSize, c);
        c := before.recs[c].parent;
      }
      assert Stores(arr, arr[c], forest.recs[c]);
    }

    /** Hangs every node of the walk from `id` directly below the root and corrects values and sizes. */
    method Shrink(root: Unode, id: int)
      requires Valid() && 1 <= id <= |arr| && root == arr[RootOf(forest, id - 1)]
      modifies this`forest, arr
      ensures Valid() && SameGroups(old(forest), forest)
      ensures forall x :: x in Path(old(forest), id - 1) ==> In(forest, x) && Depth(forest, x) <= 1
    {
      ShrinkStarts(forest, id - 1);
      ghost var c;
      var pSize;
      c, pSize := ShrinkLoop(root, id);
      ShrinkEnds(old(forest), forest, c, pSize, naive);
      FlattenEnds(old(forest), forest, id - 1, c);
    }

    method FindRoot(id: int) returns (node: Unode)
      requires Linked() && 1 <= id <= |arr|
      ensures node == arr[RootOf(forest, id - 1)]
    {
      node := arr[id - 1];
      ghost var c := id - 1;
      while !node.rootFlag
        invariant In(forest, c) && node == arr[c] && RootOf(forest, c) == RootOf(forest, id - 1)
        decreases forest.bound - forest.rank[c]
      {
        assert Stores(arr, arr[c], forest.recs[c]);
        node := node.parent;
        c := forest.recs[c].parent;
      }
      assert Stores(arr, arr[c], forest.recs[c]);
    }

    /** The root of a company's group; every node of the walk to it is at most one step away from it afterwards. */
    method FindAssist(id: int) returns (node: Unode)
      requires Valid() && 1 <= id <= |arr|
      modifies this`forest, arr
      ensures Valid() && SameGroups(old(forest), forest)
      ensures node == arr[RootOf(forest, id - 1)]
      ensures forall x :: x in Path(old(forest), id - 1) ==> In(forest, x) && Depth(forest, x) <= 1
    {
      node := FindRoot(id);
      Shrink(node, id);
      assert SameAt(old(forest), forest, id - 1);
    }

    /** The acquirer's root takes the other in. */
    method FirstTakes(first: Unode, second: Unode, factor: real, ghost rf: int, ghost rs: int, ghost gain: real)
      requires Linked() && CanJoin(forest, rf, rs) && first == arr[rf] && second == arr[rs]
      requires gain == Premium(factor, second.unionValue)
      modifies this`forest, first, second
      ensures Linked() && CanJoin(old(forest), rf, rs) && forest == FirstSurvives(old(forest), rf, rs, gain)
    {
      assert Stores(arr, first, forest.recs[rf]) && Stores(arr, second, forest.recs[rs]);
      FirstSurvivesGain(forest, rf, rs, gain, rf);
      first.MergeTrees(second);
      first.value := first.value + factor * second.unionValue;
      second.value := second.value - first.value;
      first.unionValue := first.unionValue + factor * second.unionValue;
      forest := FirstSurvives(forest, rf, rs, gain);
      assert Stores(arr, first, forest.recs[rf]) && Stores(arr, second, forest.recs[rs]);
    }

    /** The acquirer's root goes below the other, which keeps its own value. */
    method SecondTakes(first: Unode, second: Unode, factor: real, ghost rf: int, ghost rs: int, ghost gain: real)
      requires Linked() && CanJoin(forest, rf, rs) && first == arr[rf] && second == arr[rs]
      requires gain == Premium(factor, second.unionValue)
      modifies this`forest, first, second
      ensures Linked() && CanJoin(old(forest), rf, rs) && forest == SecondSurvives(old(forest), rf, rs, gain)
    {
      assert Stores(arr, first, forest.recs[rf]) && Stores(arr, second, forest.recs[rs]);
      SecondSurvivesGain(forest, rf, rs, gain, rf);
      second.MergeTrees(first);
      first.value := first.value + factor * second.unionValue - second.value;
      second.unionValue := first.unionValue + factor * second.unionValue;
      forest := SecondSurvives(forest, rf, rs, gain);
      assert Stores(arr, first, forest.recs[rf]) && Stores(arr, second, forest.recs[rs]);
    }

    /** Two different roots become one group: the smaller is hung below the larger, and values are settled. */
    method Merge(first: Unode, second: Unode, factor: real, ghost a: int, ghost b: int) returns (res: int)
      requires Valid() && In(forest, a) && In(forest, b) && RootOf(forest, a) != RootOf(forest, b)
      requires first == arr[RootOf(forest, a)] && second == arr[RootOf(forest, b)]
      modifies this, first, second
      ensures Valid() && naive == Acquire(old(naive), a, b, factor)
      ensures Acquired(old(naive), naive, old(naive.leader)[a], old(naive.leader)[b], factor)
      ensures Survivor(old(forest), forest, a, b, res)
    {
      ghost var rf, rs := RootOf(forest, a), RootOf(forest, b);
      assert Stores(arr, first, forest.recs[rf]) && Stores(arr, second, forest.recs[rs]);
      ghost var gain := Premium(factor, second.unionValue);
      if first.IsBigger(second) {
        FirstUnion(forest, FirstSurvives(forest, rf, rs, gain), naive, a, b, factor, gain);
        FirstTakes(first, second, factor, rf, rs, gain);
        res := 1;
      } else {
        SecondUnion(forest, SecondSurvives(forest, rf, rs, gain), naive, a, b, factor, gain);
        SecondTakes(first, second, factor, rf, rs, gain);
        res := 2;
      }
      naive := Acquire(naive, a, b, factor);
    }

    method FindBoth(fId: int, sId: int) returns (first: Unode, second: Unode)
      requires Valid() && 1 <= fId <= |arr| && 1 <= sId <= |arr|
      modifies this`forest, arr
      ensures Valid() && SameGroups(old(forest), forest)
      ensures first == arr[RootOf(forest, fId - 1)] && second == arr[RootOf(forest, sId - 1)]
      ensures first == second <==> RootOf(forest, fId - 1) == RootOf(forest, sId - 1)
      ensures first == second <==> naive.leader[fId - 1] == naive.leader[sId - 1]
    {
      LeadersByRoot(forest, naive, fId - 1, sId - 1);
      first := FindAssist(fId);
      ghost var between := forest;
      second := FindAssist(sId);
      SameGroupsTrans(old(forest), between, forest);
      assert SameAt(between, forest, fId - 1);
      assert SameAt(old(forest), forest, fId - 1) && SameAt(old(forest), forest, sId - 1);
      assert first.id == RootOf(forest, fId - 1) + 1 && second.id == RootOf(forest, sId - 1) + 1;
    }

    /**
     * The group of `sId` joins that of `fId`. Result 3: they were one group already, nothing changes.
     * Result 1: the acquirer's root survives, because its group is at least as large; result 2: the other's does.
     */
    method Union(fId: int, sId: int, factor: real) returns (res: int)
      requires Valid() && 1 <= fId <= |arr| && 1 <= sId <= |arr|
      modifies this, arr
      ensures Valid()
      ensures naive == Acquire(old(naive), fId - 1, sId - 1, factor)
      ensures res == 3 ==> naive == old(naive)
      ensures res != 3 ==> Acquired(old(naive), naive, old(naive.leader)[fId - 1], old(naive.leader)[sId - 1], factor)
      ensures res == 3 <==> old(naive.leader[fId - 1] == naive.leader[sId - 1])
      ensures Survivor(old(forest), forest, fId - 1, sId - 1, res)
    {
      hide Acquired, Survivor, SameGroups, Refines;
      var first, second := FindBoth(fId, sId);
      ghost var between := forest;
      if first == second {
        SurvivorSame(forest, fId - 1, sId - 1);
        SurvivorKept(old(forest), forest, forest, fId - 1, sId - 1, 3);
        return 3;
      }
      res := Merge(first, second, factor, fId - 1, sId - 1);
      SurvivorKept(old(forest), between, forest, fId - 1, sId - 1, res);
    }

    /** A company's standing, read as the sum of the values on its parent path. */
    method CompanyStanding(id: int) returns (standing: real)
      requires Valid() && 1 <= id <= |arr|
      ensures standing == naive.standing[id - 1]
    {
      standing := 0.0;
      ghost var c := id - 1;
      assert RefinesAt(forest, naive, c);
      var iter: Unode? := arr[id - 1];
      while iter != null
        invariant iter == null || (In(forest, c) && iter == arr[c])
        invariant standing + (if iter == null then 0.0 else Standing(forest, c)) == Standing(forest, id - 1)
        decreases iter != null, if iter == null then 0 else forest.bound - forest.rank[c]
      {
        assert Stores(arr, arr[c], forest.recs[c]);
        standing := standing + iter.value;
        iter := iter.parent;
        c := forest.recs[c].parent;
      }
    }
  }
}
