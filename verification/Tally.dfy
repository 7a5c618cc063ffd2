/** Sums over finite maps, in no particular order. */
module Tally {

  datatype Totals = Totals(num: int, sum: int)

  function Plus(a: Totals, b: Totals): Totals {
    Totals(a.num + b.num, a.sum + b.sum)
  }

  ghost function Pick<T>(s: set<T>): (x: T)
    requires s != {}
    ensures x in s
  {
    var x :| x in s;
    x
  }

  ghost function Over(shares: map<int, Totals>, ks: set<int>): Totals
    requires ks <= shares.Keys
    decreases ks
  {
    if ks == {} then Totals(0, 0)
    else
      var x := Pick(ks);
      Plus(shares[x], Over(shares, ks - {x}))
  }

  lemma {:induction false} OverNatural(shares: map<int, Totals>, ks: set<int>)
    requires ks <= shares.Keys && forall x :: x in shares ==> shares[x].num >= 0 && shares[x].sum >= 0
    ensures Over(shares, ks).num >= 0 && Over(shares, ks).sum >= 0
    decreases ks
  {
    if ks != {} {
      OverNatural(shares, ks - {Pick(ks)});
    }
  }

  lemma {:induction false} WithoutTwo<T>(s: set<T>, x: T, y: T)
    ensures s - {x} - {y} == s - {y} - {x}
  {
  }

  /** Any key may be counted first. */
  lemma {:induction false} CountFirst(shares: map<int, Totals>, ks: set<int>, x: int)
    requires ks <= shares.Keys && x in ks
    ensures Over(shares, ks) == Plus(shares[x], Over(shares, ks - {x}))
    decreases ks
  {
    var y := Pick(ks);
    if x != y {
      CountFirst(shares, ks - {y}, x);
      CountFirst(shares, ks - {x}, y);
      WithoutTwo(ks, x, y);
    }
  }

  lemma {:induction false} SameCount(a: map<int, Totals>, b: map<int, Totals>, ks: set<int>)
    requires ks <= a.Keys && ks <= b.Keys && forall x :: x in ks ==> a[x] == b[x]
    ensures Over(a, ks) == Over(b, ks)
    decreases ks
  {
    if ks != {} {
      SameCount(a, b, ks - {Pick(ks)});
    }
  }

  lemma {:induction false} UnionWithout<T>(a: set<T>, b: set<T>, x: T)
    requires a !! b && x in b
    ensures (a + b) - {x} == a + (b - {x})
  {
  }

  /** Two disjoint parts are counted one after the other. */
  lemma {:induction false} CountBoth(shares: map<int, Totals>, a: set<int>, b: set<int>, all: set<int>)
    requires a !! b && all == a + b && all <= shares.Keys
    ensures Over(shares, all) == Plus(Over(shares, a), Over(shares, b))
    decreases b
  {
    if b == {} {
      assert all == a;
    } else {
      var x := Pick(b);
      UnionWithout(a, b, x);
      CountBoth(shares, a, b - {x}, all - {x});
      CountFirst(shares, all, x);
    }
  }

  lemma {:induction false} PlusExchange(a: Totals, b: Totals, c: Totals, d: Totals)
    ensures Plus(Plus(a, b), Plus(c, d)) == Plus(Plus(a, c), Plus(b, d))
  {
  }

  /** Two ways of counting, added up. */
  lemma {:induction false} OverSum(a: map<int, Totals>, b: map<int, Totals>, c: map<int, Totals>, ks: set<int>)
    requires ks <= a.Keys && ks <= b.Keys && ks <= c.Keys && forall x :: x in ks ==> c[x] == Plus(a[x], b[x])
    ensures Over(c, ks) == Plus(Over(a, ks), Over(b, ks))
    decreases ks
  {
    if ks != {} {
      var x, rest := Pick(ks), ks - {Pick(ks)};
      OverSum(a, b, c, rest);
      assert c[x] == Plus(a[x], b[x]);
      PlusExchange(a[x], b[x], Over(a, rest), Over(b, rest));
    }
  }

  lemma {:induction false} OverNothing(a: map<int, Totals>, ks: set<int>)
    requires ks <= a.Keys && forall x :: x in ks ==> a[x] == Totals(0, 0)
    ensures Over(a, ks) == Totals(0, 0)
    decreases ks
  {
    if ks != {} {
      OverNothing(a, ks - {Pick(ks)});
    }
  }
}
