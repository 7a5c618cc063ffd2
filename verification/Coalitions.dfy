/** Counting coalitions by backtracking over one shared array of flags, against the set of all coalitions. */
module Coalitions {

  const MINIMUM := 60

  ghost function Below(n: nat): (r: set<int>)
    ensures forall i :: i in r <==> 0 <= i < n
  {
    if n == 0 then {} else Below(n - 1) + {n - 1}
  }

  /** Seats of the members of `s` among the first `n` parties. */
  ghost function Weight(mandates: seq<int>, s: set<int>, n: nat): int
    requires n <= |mandates|
  {
    if n == 0 then 0 else Weight(mandates, s, n - 1) + if n - 1 in s then mandates[n - 1] else 0
  }

  ghost predicate Square(can: seq<seq<bool>>, n: nat) {
    |can| == n && forall i :: 0 <= i < n ==> |can[i]| == n
  }

  /** Party `i` can work with every member that comes before it. */
  ghost predicate Fits(can: seq<seq<bool>>, s: set<int>, i: int)
    requires Square(can, |can|) && 0 <= i < |can|
  {
    forall g :: 0 <= g < i && g in s ==> can[i][g]
  }

  /** A coalition: all members get along, and together they have more seats than the minimum. */
  ghost predicate IsCoalition(mandates: seq<int>, can: seq<seq<bool>>, s: set<int>)
    requires Square(can, |mandates|)
  {
    && s <= Below(|mandates|)
    && (forall i :: 0 <= i < |mandates| && i in s ==> Fits(can, s, i))
    && Weight(mandates, s, |mandates|) > 60
  }

  /** What remains possible once the first `index` parties are decided: as `prefix` says, and no check made again. */
  ghost predicate Extends(mandates: seq<int>, can: seq<seq<bool>>, prefix: set<int>, index: nat, s: set<int>)
    requires Square(can, |mandates|) && index <= |mandates|
  {
    && s <= Below(|mandates|) && s * Below(index) == prefix
    && (forall i :: index <= i < |mandates| && i in s ==> Fits(can, s, i))
    && Weight(mandates, s, |mandates|) > 60
  }

  ghost function Extensions(mandates: seq<int>, can: seq<seq<bool>>, prefix: set<int>, index: nat): set<set<int>>
    requires Square(can, |mandates|) && index <= |mandates|
  {
    set s: set<int> | s <= Below(|mandates|) && Extends(mandates, can, prefix, index, s)
  }

  lemma {:induction false} WeightPrefix(mandates: seq<int>, s: set<int>, t: set<int>, n: nat)
    requires n <= |mandates| && s * Below(n) == t * Below(n)
    ensures Weight(mandates, s, n) == Weight(mandates, t, n)
  {
    if n > 0 {
      assert n - 1 in Below(n);
      assert n - 1 in s <==> n - 1 in s * Below(n);
      assert n - 1 in t <==> n - 1 in t * Below(n);
      assert s * Below(n - 1) == (s * Below(n)) * Below(n - 1);
      assert t * Below(n - 1) == (t * Below(n)) * Below(n - 1);
      WeightPrefix(mandates, s, t, n - 1);
    }
  }

  /** When every party is decided, the prefix itself is the only candidate. */
  lemma {:induction false} AllDecided(mandates: seq<int>, can: seq<seq<bool>>, prefix: set<int>)
    requires Square(can, |mandates|) && prefix <= Below(|mandates|)
    ensures Extensions(mandates, can, prefix, |mandates|) ==
            if Weight(mandates, prefix, |mandates|) > 60 then {prefix} else {}
  {
    forall s: set<int> | s <= Below(|mandates|)
      ensures s * Below(|mandates|) == s
    {
    }
  }

  /** One party is in or out: two families without a common member. */
  lemma {:induction false} InOrOut(mandates: seq<int>, can: seq<seq<bool>>, prefix: set<int>, index: nat)
    requires Square(can, |mandates|) && index < |mandates| && prefix <= Below(index)
    ensures var inside := if Fits(can, prefix, index) then Extensions(mandates, can, prefix + {index}, index + 1) else {};
            var outside := Extensions(mandates, can, prefix, index + 1);
            && Extensions(mandates, can, prefix, index) == inside + outside
            && |Extensions(mandates, can, prefix, index)| == |inside| + |outside|
  {
    var inside := if Fits(can, prefix, index) then Extensions(mandates, can, prefix + {index}, index + 1) else {};
    var outside := Extensions(mandates, can, prefix, index + 1);
    forall s: set<int> | s <= Below(|mandates|)
      ensures Extends(mandates, can, prefix, index, s) <==>
              (if index in s then Fits(can, prefix, index) && Extends(mandates, can, prefix + {index}, index + 1, s)
               else Extends(mandates, can, prefix, index + 1, s))
      ensures s in inside ==> index in s
      ensures s in outside ==> index !in s
    {
      ExtendsSplit(mandates, can, prefix, index, s);
      assert index in Below(index + 1);
      assert index in s <==> index in s * Below(index + 1);
    }
    assert inside !! outside;
    assert Extensions(mandates, can, prefix, index) == inside + outside;
  }

  lemma {:induction false} ExtendsSplit(mandates: seq<int>, can: seq<seq<bool>>, prefix: set<int>, index: nat, s: set<int>)
    requires Square(can, |mandates|) && index < |mandates| && prefix <= Below(index) && s <= Below(|mandates|)
    ensures Extends(mandates, can, prefix, index, s) <==>
            (if index in s then Fits(can, prefix, index) && Extends(mandates, can, prefix + {index}, index + 1, s)
             else Extends(mandates, can, prefix, index + 1, s))
  {
    assert Below(index + 1) == Below(index) + {index};
    if index in s {
      assert s * Below(index + 1) == s * Below(index) + {index};
    } else {
      assert s * Below(index + 1) == s * Below(index);
    }
    if s * Below(index) == prefix {
      assert Fits(can, s, index) <==> Fits(can, prefix, index) by {
        assert forall g :: 0 <= g < index ==> (g in s <==> g in s * Below(index));
      }
    }
  }

  /** The set of all coalitions. */
  ghost function AllCoalitions(mandates: seq<int>, can: seq<seq<bool>>): set<set<int>>
    requires Square(can, |mandates|)
  {
    set s: set<int> | s <= Below(|mandates|) && IsCoalition(mandates, can, s)
  }

  lemma {:induction false} NothingDecided(mandates: seq<int>, can: seq<seq<bool>>)
    requires Square(can, |mandates|)
    ensures Extensions(mandates, can, {}, 0) == AllCoalitions(mandates, can)
  {
    forall s: set<int> | s <= Below(|mandates|)
      ensures s * Below(0) == {}
    {
    }
  }

  /** The members chosen among the first `index` parties. */
  ghost function Chosen(chosen: seq<bool>, index: nat): (r: set<int>)
    requires index <= |chosen|
    ensures r <= Below(index) && forall i :: i in r <==> 0 <= i < index && chosen[i]
  {
    if index == 0 then {} else Chosen(chosen, index - 1) + if chosen[index - 1] then {index - 1} else {}
  }

  method CheckCollaboration(can: seq<seq<bool>>, index: nat, chosen: array<bool>) returns (ok: bool)
    requires Square(can, |can|) && index < |can| == chosen.Length
    ensures ok <==> Fits(can, Chosen(chosen[..], index), index)
  {
    for group := 0 to index
      invariant forall g :: 0 <= g < group && chosen[g] ==> can[index][g]
    {
      if !chosen[group] {
        continue;
      }
      if !can[index][group] {
        return false;
      }
    }
    return true;
  }

  lemma {:induction false} ChosenSame(a: seq<bool>, b: seq<bool>, index: nat)
    requires index <= |a| == |b| && a[..index] == b[..index]
    ensures Chosen(a, index) == Chosen(b, index)
  {
    forall i | 0 <= i < index
      ensures a[i] == a[..index][i] == b[..index][i] == b[i]
    {
    }
  }

  /** One more flag: the members and their seats with it and without it. */
  lemma {:induction false} Decide(mandates: seq<int>, flags: seq<bool>, index: nat)
    requires index < |mandates| == |flags| && !flags[index]
    ensures var prefix := Chosen(flags, index); var chosen := flags[index := true];
            && Chosen(chosen, index) == prefix
            && Chosen(chosen, index + 1) == prefix + {index} && Chosen(flags, index + 1) == prefix
            && Weight(mandates, prefix + {index}, index + 1) == Weight(mandates, prefix, index) + mandates[index]
            && Weight(mandates, prefix, index + 1) == Weight(mandates, prefix, index)
  {
    var prefix := Chosen(flags, index);
    ChosenSame(flags, flags[index := true], index);
    WeightPrefix(mandates, prefix, prefix + {index}, index);
  }

  /** Counts the coalitions that extend what has been chosen so far, and leaves the flags as they were. */
  method CountCoalitions(mandates: seq<int>, can: seq<seq<bool>>, chosen: array<bool>, index: nat, sum: int)
    returns (combinations: int)
    requires Square(can, |mandates|) && chosen.Length == |mandates| && index <= |mandates|
    requires forall i :: index <= i < chosen.Length ==> !chosen[i]
    requires sum == Weight(mandates, Chosen(chosen[..], index), index)
    modifies chosen
    ensures chosen[..] == old(chosen[..])
    ensures combinations == |Extensions(mandates, can, Chosen(old(chosen[..]), index), index)|
    decreases |mandates| - index, 1
  {
    ghost var flags := chosen[..];
    if index == |mandates| {
      combinations := CountDecided(mandates, can, flags, sum);
      return;
    }
    var inside := CountWith(mandates, can, chosen, index, sum);
    var outside := CountWithout(mandates, can, chosen, index, sum, flags);
    combinations := inside + outside;
    InOrOut(mandates, can, Chosen(flags, index), index);
  }

  /** Every party is decided. */
  method CountDecided(mandates: seq<int>, can: seq<seq<bool>>, ghost flags: seq<bool>, sum: int)
    returns (combinations: int)
    requires Square(can, |mandates|) && |flags| == |mandates|
    requires sum == Weight(mandates, Chosen(flags, |flags|), |flags|)
    ensures combinations == |Extensions(mandates, can, Chosen(flags, |flags|), |flags|)|
  {
    AllDecided(mandates, can, Chosen(flags, |flags|));
    combinations := if sum <= MINIMUM then 0 else 1;
  }

  /** The half of the count in which the party at `index` is not a member; its flag is taken back first. */
  method CountWithout(mandates: seq<int>, can: seq<seq<bool>>, chosen: array<bool>, index: nat, sum: int,
                      ghost flags: seq<bool>)
    returns (combinations: int)
    requires Square(can, |mandates|) && chosen.Length == |mandates| == |flags| && index < |mandates|
    requires chosen[..] == flags[index := true]
    requires forall i :: index <= i < |flags| ==> !flags[i]
    requires sum == Weight(mandates, Chosen(flags, index), index)
    modifies chosen
    ensures chosen[..] == flags
    ensures combinations == |Extensions(mandates, can, Chosen(flags, index), index + 1)|
    decreases |mandates| - index, 0
  {
    Decide(mandates, flags, index);
    chosen[index] := false;
    assert chosen[..] == flags;
    combinations := CountCoalitions(mandates, can, chosen, index + 1, sum);
  }

  /** The half of the count in which the party at `index` is a member; its flag is still set afterwards. */
  method CountWith(mandates: seq<int>, can: seq<seq<bool>>, chosen: array<bool>, index: nat, sum: int)
    returns (combinations: int)
    requires Square(can, |mandates|) && chosen.Length == |mandates| && index < |mandates|
    requires forall i :: index <= i < chosen.Length ==> !chosen[i]
    requires sum == Weight(mandates, Chosen(chosen[..], index), index)
    modifies chosen
    ensures chosen[..] == old(chosen[..])[index := true]
    ensures var prefix := Chosen(old(chosen[..]), index);
            combinations == if Fits(can, prefix, index) then |Extensions(mandates, can, prefix + {index}, index + 1)| else 0
    decreases |mandates| - index, 0
  {
    ghost var flags := chosen[..];
    Decide(mandates, flags, index);
    chosen[index] := true;
    assert chosen[..] == flags[index := true];
    var ok := CheckCollaboration(can, index, chosen);
    combinations := 0;
    if ok {
      combinations := CountCoalitions(mandates, can, chosen, index + 1, sum + mandates[index]);
    }
  }

  /** From flags that are all false: the number of all coalitions. */
  method Count(mandates: seq<int>, can: seq<seq<bool>>, chosen: array<bool>) returns (n: int)
    requires Square(can, |mandates|) && chosen.Length == |mandates|
    requires forall i :: 0 <= i < chosen.Length ==> !chosen[i]
    modifies chosen
    ensures n == |AllCoalitions(mandates, can)| && chosen[..] == old(chosen[..])
  {
    n := CountCoalitions(mandates, can, chosen, 0, 0);
    NothingDecided(mandates, can);
  }
}
