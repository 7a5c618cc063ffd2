/**
 * A chained hash table that rebuilds itself, in place, against a plain map. `Insert`, `ReHash` and `CopyArray`
 * are mutually recursive; a shrink expands again in the middle of its own copy.
 */
module HashTable {
  import opened Staff

  const MULTIPLY := 2
  const FIRST_SIZE := 10

  function Slot(k: int, size: int): (b: int)
    requires size > 0
    ensures 0 <= b < size
  {
    k % size
  }

  /** The bucket of a key is its remainder by the size. */
  lemma SlotIs(k: int, size: int)
    requires size > 0
    ensures 0 <= Slot(k, size) < size && exists q :: k == q * size + Slot(k, size)
  {
    assert k == (k / size) * size + Slot(k, size);
  }

  class HtItem<D> {
    const key: int
    var data: D
    var next: HtItem?<D>

    constructor (key: int, data: D)
      ensures this.key == key && this.data == data && next == null
    {
      this.key, this.data, this.next := key, data, null;
    }

    /** Appends a node at the end of the chain that starts here, unless its key is there already. */
    method AddNode(newNode: HtItem<D>, ghost chain: seq<HtItem<D>>) returns (res: Status)
      requires Linked(this, chain) && newNode !in chain && newNode.next == null
      modifies chain
      ensures res == if Has(chain, newNode.key) then FAILURE else SUCCESS
      ensures res == FAILURE ==> Linked(this, chain)
      ensures res == SUCCESS ==> Linked(this, chain + [newNode])
      ensures forall i :: 0 <= i < |chain| ==> chain[i].data == old(chain[i].data)
    {
      var iter := this;
      ghost var i := 0;
      assert LinkAt(chain, 0);
      while iter.next != null
        invariant 0 <= i < |chain| && iter == chain[i]
        invariant forall j :: 0 <= j < i ==> chain[j].key != newNode.key
        decreases |chain| - i
      {
        assert LinkAt(chain, i);
        if iter.key == newNode.key {
          return FAILURE;
        }
        iter := iter.next;
        i := i + 1;
      }
      assert LinkAt(chain, i);
      if iter.key == newNode.key {
        return FAILURE;
      }
      Distinct(this, chain);
      iter.next := newNode;
      res := SUCCESS;
      forall j | 0 <= j < |chain| + 1
        ensures LinkAt(chain + [newNode], j)
      {
        if j < |chain| - 1 {
          assert old(LinkAt(chain, j));
        }
      }
    }
  }

  // ----- chains -----

  function At<D>(chain: seq<HtItem<D>>, i: int): HtItem?<D> {
    if 0 <= i < |chain| then chain[i] else null
  }

  ghost predicate LinkAt<D>(chain: seq<HtItem<D>>, i: int)
    requires 0 <= i < |chain|
    reads chain
  {
    chain[i].next == At(chain, i + 1)
  }

  ghost predicate Linked<D>(head: HtItem?<D>, chain: seq<HtItem<D>>)
    reads chain
  {
    head == At(chain, 0) && forall i :: 0 <= i < |chain| ==> LinkAt(chain, i)
  }

  ghost predicate Has<D>(chain: seq<HtItem<D>>, k: int) {
    exists i :: 0 <= i < |chain| && chain[i].key == k
  }

  /** A chain that ends never passes the same node twice. */
  lemma {:induction false} Distinct<D>(head: HtItem?<D>, chain: seq<HtItem<D>>)
    requires Linked(head, chain)
    ensures forall i, j :: 0 <= i < j < |chain| ==> chain[i] != chain[j]
  {
    if chain != [] {
      forall i | 0 <= i < |chain| - 1
        ensures LinkAt(chain[1..], i)
      {
        assert LinkAt(chain, i + 1);
      }
      assert LinkAt(chain, 0);
      Distinct(chain[0].next, chain[1..]);
      forall j | 0 < j < |chain|
        ensures chain[0] != chain[j]
      {
        SameRest(chain, 0, j);
      }
    }
  }

  /** Were a node met twice, what follows would be equally long both times. */
  lemma {:induction false} SameRest<D>(chain: seq<HtItem<D>>, i: int, j: int)
    requires 0 <= i < j < |chain| && forall x :: 0 <= x < |chain| ==> LinkAt(chain, x)
    ensures chain[i] != chain[j]
    decreases |chain| - j
  {
    assert LinkAt(chain, i) && LinkAt(chain, j);
    if j + 1 < |chain| {
      SameRest(chain, i + 1, j + 1);
    }
  }

  // ----- the map behind a table -----

  /** What an insertion makes of a map: a key that is there already keeps its value. */
  ghost function Added<D>(m: map<int, D>, k: int, d: D): map<int, D> {
    if k in m then m else m[k := d]
  }

  /** The keys met by a walk over the buckets that has passed those before `b` and the first `p` nodes of `b`. */
  ghost function Taken<D>(src: map<int, D>, chains: seq<seq<HtItem<D>>>, b: int, p: int): set<int> {
    set k | k in src && |chains| > 0 &&
            (Slot(k, |chains|) < b || (Slot(k, |chains|) == b && 0 <= b < |chains| && 0 <= p <= |chains[b]| && Has(chains[b][..p], k)))
  }

  /** Map `m` after the keys `ks` of `src` have been inserted: keys it had already keep their value. */
  ghost function Absorbed<D>(m: map<int, D>, src: map<int, D>, ks: set<int>): map<int, D> {
    (map k | k in src && k in ks :: src[k]) + m
  }

  /** The walk itself: the map after the buckets before `b` and `p` nodes of that one have been inserted, one by one. */
  ghost function Copied<D>(m: map<int, D>, src: map<int, D>, chains: seq<seq<HtItem<D>>>, b: nat, p: nat): map<int, D>
    requires b <= |chains| && p <= if b < |chains| then |chains[b]| else 0
    decreases b, p
  {
    if p > 0 then
      var k, sofar := chains[b][p - 1].key, Copied(m, src, chains, b, p - 1);
      if k in src then Added(sofar, k, src[k]) else sofar
    else if b > 0 then Copied(m, src, chains, b - 1, |chains[b - 1]|)
    else m
  }

  lemma {:induction false} AbsorbNone<D>(m: map<int, D>, src: map<int, D>, chains: seq<seq<HtItem<D>>>)
    ensures Absorbed(m, src, Taken(src, chains, 0, 0)) == m
  {
    assert Taken(src, chains, 0, 0) == {};
  }

  lemma {:induction false} AbsorbOne<D>(m: map<int, D>, src: map<int, D>, ks: set<int>, k: int)
    requires k in src && k !in ks
    ensures Absorbed(m, src, ks + {k}) == Added(Absorbed(m, src, ks), k, src[k])
  {
  }

  /** The sizes a table takes between operations. */
  ghost predicate TableSize(n: int) {
    n == 10 || (n > 10 && n % 2 == 0 && TableSize(n / 2))
  }

  /** A bucket array with its chains and the map they hold: what a table reads when it copies another array. */
  ghost predicate Holds<D>(arr: array<HtItem?<D>>, chains: seq<seq<HtItem<D>>>, items: set<HtItem<D>>, m: map<int, D>)
    reads arr, items
  {
    && arr.Length == |chains| > 0
    && (forall b :: 0 <= b < |chains| ==> BucketAt(arr, chains, items, m, b))
    && (forall k :: k in m ==> Has(chains[Slot(k, |chains|)], k))
  }

  ghost predicate BucketAt<D>(arr: array<HtItem?<D>>, chains: seq<seq<HtItem<D>>>, items: set<HtItem<D>>,
                              m: map<int, D>, b: int)
    requires arr.Length == |chains| && 0 <= b < |chains|
    reads arr, items
  {
    Stocked(chains, items, m, b) && Linked(arr[b], chains[b])
  }

  /** The nodes of one bucket: each holds a pair of the map whose key belongs here, no key twice. */
  ghost predicate Stocked<D>(chains: seq<seq<HtItem<D>>>, items: set<HtItem<D>>, m: map<int, D>, b: int)
    requires 0 <= b < |chains|
    reads items
    ensures Stocked(chains, items, m, b) ==> forall i :: 0 <= i < |chains[b]| ==> chains[b][i] in items
  {
    && (forall i :: 0 <= i < |chains[b]| ==> chains[b][i] in items)
    && (forall i :: 0 <= i < |chains[b]| ==> ItemAt(chains, items, m, b, i))
    && (forall i, j :: 0 <= i < j < |chains[b]| ==> chains[b][i].key != chains[b][j].key)
  }

  ghost predicate ItemAt<D>(chains: seq<seq<HtItem<D>>>, items: set<HtItem<D>>, m: map<int, D>, b: int, i: int)
    requires 0 <= b < |chains| && 0 <= i < |chains[b]|
    reads items
  {
    var item := chains[b][i];
    item in items && item.key >= 0 && item.key in m && item.data == m[item.key] && Slot(item.key, |chains|) == b
  }

  method CreateArray<D>(size: nat) returns (buckets: array<HtItem?<D>>)
    ensures fresh(buckets) && buckets.Length == size && forall i :: 0 <= i < size ==> buckets[i] == null
  {
    buckets := new HtItem?<D>[size];
    for i := 0 to size
      invariant forall j :: 0 <= j < i ==> buckets[j] == null
    {
      buckets[i] := null;
    }
  }

  /** One more node of bucket `b`: its key is new, and the copied keys grow by it. */
  lemma {:induction false} TakenStep<D>(arr: array<HtItem?<D>>, src: map<int, D>, chains: seq<seq<HtItem<D>>>,
                                        items: set<HtItem<D>>, b: int, p: int)
    requires Holds(arr, chains, items, src) && 0 <= b < |chains| && 0 <= p < |chains[b]|
    ensures var k := chains[b][p].key;
            && k in src && k >= 0 && k !in Taken(src, chains, b, p)
            && Taken(src, chains, b, p + 1) == Taken(src, chains, b, p) + {k}
    ensures src[chains[b][p].key] == chains[b][p].data
  {
    assert BucketAt(arr, chains, items, src, b);
    assert ItemAt(chains, items, src, b, p);
    var k, chain := chains[b][p].key, chains[b];
    forall x
      ensures Has(chain[..p + 1], x) <==> Has(chain[..p], x) || x == k
    {
      if Has(chain[..p], x) {
        var i :| 0 <= i < p && chain[..p][i].key == x;
        assert chain[..p + 1][i].key == x;
      }
      if x == k {
        assert chain[..p + 1][p].key == x;
      }
    }
  }

  /** Once a bucket is through, the walk stands before the next one. */
  lemma {:induction false} TakenBucket<D>(arr: array<HtItem?<D>>, src: map<int, D>, chains: seq<seq<HtItem<D>>>,
                                          items: set<HtItem<D>>, b: int)
    requires Holds(arr, chains, items, src) && 0 <= b < |chains|
    ensures Taken(src, chains, b, |chains[b]|) == Taken(src, chains, b + 1, 0)
  {
    assert chains[b][..|chains[b]|] == chains[b];
  }

  /** The walk adds exactly the keys it has passed. */
  lemma {:induction false} CopiedIs<D>(arr: array<HtItem?<D>>, src: map<int, D>, chains: seq<seq<HtItem<D>>>,
                                       items: set<HtItem<D>>, m: map<int, D>, b: nat, p: nat)
    requires Holds(arr, chains, items, src) && b <= |chains| && p <= if b < |chains| then |chains[b]| else 0
    ensures Copied(m, src, chains, b, p) == Absorbed(m, src, Taken(src, chains, b, p))
    decreases b, p
  {
    hide Absorbed, Added, Taken, Holds;
    if p > 0 {
      CopiedIs(arr, src, chains, items, m, b, p - 1);
      TakenStep(arr, src, chains, items, b, p - 1);
      AbsorbOne(m, src, Taken(src, chains, b, p - 1), chains[b][p - 1].key);
    } else if b > 0 {
      CopiedIs(arr, src, chains, items, m, b - 1, |chains[b - 1]|);
      TakenBucket(arr, src, chains, items, b - 1);
    } else {
      AbsorbNone(m, src, chains);
    }
  }

  /** When the last bucket is through, everything has been copied; keys that were there already keep their value. */
  lemma {:induction false} CopiedAll<D>(arr: array<HtItem?<D>>, src: map<int, D>, chains: seq<seq<HtItem<D>>>,
                                        items: set<HtItem<D>>, m: map<int, D>)
    requires Holds(arr, chains, items, src)
    ensures Copied(m, src, chains, |chains|, 0) == src + m
  {
    CopiedIs(arr, src, chains, items, m, |chains|, 0);
    assert Taken(src, chains, |chains|, 0) == src.Keys;
  }

  /** A rebuild has always fewer pairs than it will have at the end. */
  lemma {:induction false} RoomLeft<D>(src: map<int, D>, ks: set<int>, k: int)
    requires k in src && k !in ks
    ensures |Absorbed(map[], src, ks)| < |src|
  {
    var now := Absorbed(map[], src, ks);
    assert now.Keys < src.Keys;
    Smaller(now.Keys, src.Keys);
    assert |now| == |now.Keys| && |src| == |src.Keys|;
  }

  lemma {:induction false} Smaller<T>(a: set<T>, b: set<T>)
    requires a < b
    ensures |a| < |b|
  {
    assert b - a != {};
    var x :| x in b - a;
    assert a <= b - {x};
    NotLarger(a, b - {x});
  }

  lemma {:induction false} NotLarger<T>(a: set<T>, b: set<T>)
    requires a <= b
    ensures |a| <= |b|
  {
    if a != {} {
      var x :| x in a;
      NotLarger(a - {x}, b - {x});
    }
  }

  /** One more pair copied. */
  lemma {:induction false} CopyOne<D>(arr: array<HtItem?<D>>, chains: seq<seq<HtItem<D>>>, items: set<HtItem<D>>,
                                      src: map<int, D>, m: map<int, D>, b: int, p: int)
    requires Holds(arr, chains, items, src) && 0 <= b < |chains| && 0 <= p < |chains[b]|
    ensures var k, sofar := chains[b][p].key, Copied(m, src, chains, b, p);
            && k >= 0
            && Copied(m, src, chains, b, p + 1) == Added(sofar, k, chains[b][p].data)
            && (m == map[] ==> k !in sofar && |sofar| < |src|)
  {
    TakenStep(arr, src, chains, items, b, p);
    if m == map[] {
      CopiedIs(arr, src, chains, items, m, b, p);
      RoomLeft(src, Taken(src, chains, b, p), chains[b][p].key);
    }
  }

  /** A key is in the map exactly when its bucket has a node for it. */
  lemma {:induction false} KeysHere<D>(arr: array<HtItem?<D>>, chains: seq<seq<HtItem<D>>>, items: set<HtItem<D>>,
                                       m: map<int, D>, k: int)
    requires Holds(arr, chains, items, m)
    ensures Has(chains[Slot(k, |chains|)], k) <==> k in m
  {
    var b := Slot(k, |chains|);
    assert BucketAt(arr, chains, items, m, b);
    if Has(chains[b], k) {
      var i :| 0 <= i < |chains[b]| && chains[b][i].key == k;
      assert ItemAt(chains, items, m, b, i);
    }
  }

  lemma {:induction false} HasKey<D>(arr: array<HtItem?<D>>, chains: seq<seq<HtItem<D>>>, items: set<HtItem<D>>,
                                     m: map<int, D>, k: int)
    requires Holds(arr, chains, items, m) && k in m
    ensures k >= 0
  {
    var b := Slot(k, |chains|);
    var i :| 0 <= i < |chains[b]| && chains[b][i].key == k;
    assert BucketAt(arr, chains, items, m, b) && ItemAt(chains, items, m, b, i);
  }

  /** The buckets after one of them has got a node for a new key. */
  lemma {:induction false} Restocked<D>(chains: seq<seq<HtItem<D>>>, items: set<HtItem<D>>, m: map<int, D>,
                                        node: HtItem<D>, index: int)
    requires 0 <= index < |chains| && node.key >= 0 && Slot(node.key, |chains|) == index
    requires node.key !in m && forall b :: 0 <= b < |chains| ==> Stocked(chains, items, m, b)
    requires forall k :: k in m ==> Has(chains[Slot(k, |chains|)], k)
    ensures var after: seq<seq<HtItem<D>>> := chains[index := chains[index] + [node]];
            var m' := m[node.key := node.data];
            && (forall b :: 0 <= b < |chains| ==> Stocked(after, items + {node}, m', b))
            && (forall k :: k in m' ==> Has(after[Slot(k, |chains|)], k))
  {
    var after: seq<seq<HtItem<D>>> := chains[index := chains[index] + [node]];
    var m' := m[node.key := node.data];
    forall b | 0 <= b < |chains|
      ensures Stocked(after, items + {node}, m', b)
    {
      assert Stocked(chains, items, m, b);
      forall i | 0 <= i < |after[b]|
        ensures ItemAt(after, items + {node}, m', b, i)
        ensures i < |chains[b]| ==> after[b][i].key != node.key
      {
        if i < |chains[b]| {
          assert ItemAt(chains, items, m, b, i);
        }
      }
    }
    forall k | k in m'
      ensures Has(after[Slot(k, |chains|)], k)
    {
      var b := Slot(k, |chains|);
      if k == node.key {
        assert after[index][|chains[index]|].key == k;
      } else {
        var i :| 0 <= i < |chains[b]| && chains[b][i].key == k;
        assert after[b][i].key == k;
      }
    }
  }

  function Without<D>(chain: seq<HtItem<D>>, p: int): seq<HtItem<D>>
    requires 0 <= p < |chain|
  {
    chain[..p] + chain[p + 1..]
  }

  /** The buckets after one node has been taken out. */
  lemma {:induction false} Unstocked<D>(chains: seq<seq<HtItem<D>>>, items: set<HtItem<D>>, m: map<int, D>,
                                        index: int, p: int)
    requires 0 <= index < |chains| && 0 <= p < |chains[index]|
    requires forall b :: 0 <= b < |chains| ==> Stocked(chains, items, m, b)
    requires forall k :: k in m ==> Has(chains[Slot(k, |chains|)], k)
    ensures var after: seq<seq<HtItem<D>>> := chains[index := Without(chains[index], p)];
            var m' := m - {chains[index][p].key};
            && (forall b :: 0 <= b < |chains| ==> Stocked(after, items, m', b))
            && (forall k :: k in m' ==> Has(after[Slot(k, |chains|)], k))
  {
    var after: seq<seq<HtItem<D>>> := chains[index := Without(chains[index], p)];
    var m' := m - {chains[index][p].key};
    assert Stocked(chains, items, m, index) && ItemAt(chains, items, m, index, p);
    forall b | 0 <= b < |chains|
      ensures Stocked(after, items, m', b)
    {
      assert Stocked(chains, items, m, b);
      forall i | 0 <= i < |after[b]|
        ensures ItemAt(after, items, m', b, i)
      {
        assert ItemAt(chains, items, m, b, if b != index || i < p then i else i + 1);
      }
    }
    forall k | k in m'
      ensures Has(after[Slot(k, |chains|)], k)
    {
      var b := Slot(k, |chains|);
      var i :| 0 <= i < |chains[b]| && chains[b][i].key == k;
      if b != index || i < p {
        assert after[b][i].key == k;
      } else {
        assert after[b][i - 1].key == k;
      }
    }
  }

  class HashTable<D> {
    var arr: array<HtItem?<D>>
    var counter: int
    var size: int
    ghost var chains: seq<seq<HtItem<D>>>
    ghost var items: set<HtItem<D>>
    ghost var contents: map<int, D>

    /** What every step keeps, the half-built tables inside a rebuild included. */
    ghost predicate Sound()
      reads this, arr, items
    {
      size == arr.Length && Holds(arr, chains, items, contents) && counter == |contents| < size
    }

    /** What holds between operations: the counter is exact and below the size, which is 10 times a power of two. */
    ghost predicate Valid()
      reads this, arr, items
    {
      Sound() && TableSize(size)
    }

    constructor ()
      ensures Valid() && contents == map[] && size == 10
      ensures fresh(arr) && items == {}
    {
      var buckets := CreateArray<D>(FIRST_SIZE);
      arr := buckets;
      counter, size := 0, FIRST_SIZE;
      chains := seq(FIRST_SIZE, b => []);
      items, contents := {}, map[];
    }

    /** The item with the given key; its data may be written through it. */
    method Find(key: int) returns (item: HtItem?<D>)
      requires Sound() && key >= 0
      ensures item == null <==> key !in contents
      ensures item != null ==> item in items && item.key == key && item.data == contents[key]
      ensures item != null ==> item in chains[Slot(key, size)]
    {
      var index := Slot(key, size);
      ghost var chain := chains[index];
      assert BucketAt(arr, chains, items, contents, index);
      item := arr[index];
      ghost var i := 0;
      while item != null
        invariant 0 <= i <= |chain| && item == At(chain, i)
        invariant forall j :: 0 <= j < i ==> chain[j].key != key
        decreases |chain| - i
      {
        assert ItemAt(chains, items, contents, index, i) && LinkAt(chain, i);
        if item.key == key {
          return;
        }
        item := item.next;
        i := i + 1;
      }
      assert !Has(chain, key);
    }

    /** Finds the item of a key and writes its data. */
    method Update(key: int, d: D)
      requires Sound() && key in contents
      modifies this`contents, items
      ensures Sound() && contents == old(contents)[key := d]
    {
      KeysHere(arr, chains, items, contents, key);
      HasKey(arr, chains, items, contents, key);
      var item := Find(key);
      ghost var home := Slot(key, size);
      item.data := d;
      contents := contents[key := d];
      forall b | 0 <= b < |chains|
        ensures BucketAt(arr, chains, items, contents, b)
      {
        assert old(BucketAt(arr, chains, items, contents, b));
        forall i | 0 <= i < |chains[b]|
          ensures ItemAt(chains, items, contents, b, i) && LinkAt(chains[b], i)
        {
          assert old(ItemAt(chains, items, contents, b, i) && LinkAt(chains[b], i));
          assert chains[b][i].key == key ==> b == home && chains[b][i] == item;
        }
      }
    }

    // ----- insertion and rebuilding -----

    /** Adds a pair unless its key is present; a table with one free place left is doubled first, whatever happens next. */
    method Insert(k: int, d: D) returns (res: Status)
      requires Sound() && k >= 0
      modifies this, arr, items
      ensures Sound()
      ensures res == if k in old(contents) then FAILURE else SUCCESS
      ensures contents == Added(old(contents), k, d)
      ensures size == if old(counter) + 1 == old(size) then 2 * old(size) else old(size)
      ensures fresh(items - old(items)) && (arr == old(arr) || fresh(arr))
      decreases if counter + 1 == size then 1 else 0, 0
    {
      if counter + 1 == size {
        var _ := ReHash();
      }
      res := Place(k, d);
    }

    /** The part of an insertion that follows the rebuild: a new node at the end of its bucket. */
    method Place(k: int, d: D) returns (res: Status)
      requires Sound() && k >= 0 && counter + 1 < size
      modifies this, arr, items
      ensures Sound() && arr == old(arr) && size == old(size) && fresh(items - old(items))
      ensures res == if k in old(contents) then FAILURE else SUCCESS
      ensures contents == Added(old(contents), k, d)
    {
      var node := new HtItem(k, d);
      var index := Slot(k, size);
      KeysHere(arr, chains, items, contents, k);
      res := Append(node, index);
      if res == SUCCESS {
        Restocked(chains, items, contents, node, index);
        counter := counter + 1;
        chains := chains[index := chains[index] + [node]];
        items := items + {node};
        contents := contents[k := d];
      }
    }

    /** Changing the links of one bucket leaves the others, and everybody's data, as they were. */
    twostate lemma Untouched(new index: int)
      requires old(Sound()) && unchanged(this) && 0 <= index < size
      requires forall b :: 0 <= b < size && b != index ==> arr[b] == old(arr[b])
      requires forall x :: x in items ==> x.data == old(x.data)
      requires forall x :: x in items && x !in chains[index] ==> x.next == old(x.next)
      ensures forall b :: 0 <= b < |chains| ==> Stocked(chains, items, contents, b)
      ensures forall b :: 0 <= b < |chains| && b != index ==> Linked(arr[b], chains[b])
    {
      assert old(BucketAt(arr, chains, items, contents, index));
      forall x | x in chains[index]
        ensures Slot(x.key, |chains|) == index
      {
        var j :| 0 <= j < |chains[index]| && chains[index][j] == x;
        assert old(ItemAt(chains, items, contents, index, j));
      }
      forall b | 0 <= b < |chains|
        ensures Stocked(chains, items, contents, b)
        ensures b != index ==> Linked(arr[b], chains[b])
      {
        assert old(BucketAt(arr, chains, items, contents, b));
        forall i | 0 <= i < |chains[b]|
          ensures ItemAt(chains, items, contents, b, i)
          ensures b != index ==> LinkAt(chains[b], i)
        {
          assert old(ItemAt(chains, items, contents, b, i) && LinkAt(chains[b], i));
        }
      }
    }

    /** Hangs a new node at the end of a bucket; nothing else moves. */
    method Append(node: HtItem<D>, index: int) returns (res: Status)
      requires Sound() && 0 <= index < size && node !in items && node.next == null
      modifies arr, items
      ensures res == if Has(chains[index], node.key) then FAILURE else SUCCESS
      ensures forall b :: 0 <= b < |chains| ==> Stocked(chains, items, contents, b)
      ensures forall b :: 0 <= b < |chains| && (b != index || res == FAILURE) ==> Linked(arr[b], chains[b])
      ensures res == SUCCESS ==> Linked(arr[index], chains[index] + [node])
    {
      ghost var chain := chains[index];
      assert BucketAt(arr, chains, items, contents, index);
      var iter := arr[index];
      if iter == null {
        arr[index] := node;
        res := SUCCESS;
      } else {
        res := iter.AddNode(node, chain);
      }
      Untouched(index);
    }

    /** Rebuilds the array when it is full but for one place, or exactly half full; the pairs are the same afterwards. */
    method ReHash() returns (res: Status)
      requires Sound() && (counter + 1 == size || size % 2 == 0)
      modifies this, arr, items
      ensures Sound() && res == SUCCESS && contents == old(contents)
      ensures size == if old(counter) + 1 == old(size) then 2 * old(size) else old(size)
      ensures fresh(items - old(items)) && (arr == old(arr) || fresh(arr))
      ensures counter + 1 < size
      decreases if counter + 1 == size then 0 else 1, 7
    {
      var arraySize := size;
      if counter + 1 == arraySize {
        Rebuild(arraySize * MULTIPLY);
      } else if counter == arraySize / MULTIPLY {
        Rebuild(arraySize / MULTIPLY);
      }
      res := SUCCESS;
    }

    /** A new array of the given size takes over; one that is too small for the pairs is doubled while they arrive. */
    method Rebuild(newSize: int)
      requires Sound() && newSize > 0 && counter <= newSize
      modifies this
      ensures Sound() && contents == old(contents) && fresh(arr) && fresh(items)
      ensures size == if old(counter) < newSize then newSize else 2 * newSize
      decreases if counter < newSize then 0 else 1, 6
    {
      var temp, oldSize := arr, size;
      ghost var src, srcChains, srcItems := contents, chains, items;
      arr := CreateArray(newSize);
      counter, size := 0, newSize;
      chains, items, contents := seq(newSize, b => []), {}, map[];
      CopyArray(temp, oldSize, src, srcChains, srcItems);
    }

    /** Inserts copies of all pairs of another bucket array. */
    method CopyArray(arrayToCopy: array<HtItem?<D>>, arraySize: int, ghost src: map<int, D>,
                     ghost srcChains: seq<seq<HtItem<D>>>, ghost srcItems: set<HtItem<D>>)
      requires Sound() && contents == map[] && |src| <= size
      requires Holds(arrayToCopy, srcChains, srcItems, src) && arraySize == arrayToCopy.Length
      requires arrayToCopy != arr && srcItems !! items
      modifies this, arr, items
      ensures Sound() && contents == src
      ensures size == if |src| < old(size) then old(size) else 2 * old(size)
      ensures fresh(items - old(items)) && (arr == old(arr) || fresh(arr))
      decreases if |src| < size then 0 else 1, 5
    {
      CopiedAll(arrayToCopy, src, srcChains, srcItems, map[]);
      assert src + map[] == src;
      assert Copying(arrayToCopy, srcChains, srcItems, src, map[], size, 0, 0);
      CopyBuckets(arrayToCopy, arraySize, map[], src, srcChains, srcItems, size);
    }

    /**
     * The state of a copy that has passed the buckets before `b` and `p` nodes of that one. A rebuild started empty
     * with size `s0` and is doubled once its last pair has arrived, if at all; for a merge `s0` is 0.
     */
    ghost predicate Copying(from: array<HtItem?<D>>, srcChains: seq<seq<HtItem<D>>>, srcItems: set<HtItem<D>>,
                            src: map<int, D>, m: map<int, D>, s0: int, b: int, p: int)
      reads this, arr, items, from, srcItems
    {
      && Holds(from, srcChains, srcItems, src) && from != arr && srcItems !! items
      && Sound() && 0 <= b <= |srcChains| && 0 <= p <= (if b < |srcChains| then |srcChains[b]| else 0)
      && contents == Copied(m, src, srcChains, b, p)
      && (s0 > 0 ==> m == map[] && |src| <= s0 && size == if counter < s0 then s0 else 2 * s0)
    }

    /** The loop that a rebuild and a merge share: bucket by bucket, every pair of another array is inserted. */
    method CopyBuckets(arrayToCopy: array<HtItem?<D>>, arraySize: int, ghost m: map<int, D>, ghost src: map<int, D>,
                       ghost srcChains: seq<seq<HtItem<D>>>, ghost srcItems: set<HtItem<D>>, ghost s0: int)
      requires Copying(arrayToCopy, srcChains, srcItems, src, m, s0, 0, 0) && arraySize == arrayToCopy.Length
      modifies this, arr, items
      ensures Copying(arrayToCopy, srcChains, srcItems, src, m, s0, arraySize, 0)
      ensures old(TableSize(size)) ==> TableSize(size)
      ensures size >= old(size) && fresh(items - old(items)) && (arr == old(arr) || fresh(arr))
      decreases if |src| < s0 then 0 else 1, 4
    {
      var index := 0;
      while index < arraySize
        invariant 0 <= index <= arraySize
        invariant Copying(arrayToCopy, srcChains, srcItems, src, m, s0, index, 0)
        invariant old(TableSize(size)) ==> TableSize(size)
        invariant size >= old(size) && fresh(items - old(items)) && (arr == old(arr) || fresh(arr))
      {
        CopyChain(arrayToCopy, index, m, src, srcChains, srcItems, s0);
        index := index + 1;
      }
    }

    /** Inserts copies of the pairs of one bucket of another array. */
    method CopyChain(arrayToCopy: array<HtItem?<D>>, index: int, ghost m: map<int, D>, ghost src: map<int, D>,
                     ghost srcChains: seq<seq<HtItem<D>>>, ghost srcItems: set<HtItem<D>>, ghost s0: int)
      requires Copying(arrayToCopy, srcChains, srcItems, src, m, s0, index, 0) && 0 <= index < arrayToCopy.Length
      modifies this, arr, items
      ensures Copying(arrayToCopy, srcChains, srcItems, src, m, s0, index + 1, 0)
      ensures old(TableSize(size)) ==> TableSize(size)
      ensures size >= old(size) && fresh(items - old(items)) && (arr == old(arr) || fresh(arr))
      decreases if |src| < s0 then 0 else 1, 3
    {
      ghost var chain, p := srcChains[index], 0;
      assert BucketAt(arrayToCopy, srcChains, srcItems, src, index);
      var item := arrayToCopy[index];
      while item != null
        invariant 0 <= p <= |chain| && item == At(chain, p)
        invariant Copying(arrayToCopy, srcChains, srcItems, src, m, s0, index, p)
        invariant old(TableSize(size)) ==> TableSize(size)
        invariant size >= old(size) && fresh(items - old(items)) && (arr == old(arr) || fresh(arr))
        decreases |chain| - p
      {
        item := CopyItem(arrayToCopy, index, m, src, srcChains, srcItems, s0, item, p);
        p := p + 1;
      }
    }

    /** An insertion leaves an array that is being copied alone. */
    method InsertBeside(k: int, d: D, ghost from: array<HtItem?<D>>, ghost srcChains: seq<seq<HtItem<D>>>,
                        ghost srcItems: set<HtItem<D>>, ghost src: map<int, D>)
      requires Sound() && k >= 0 && Holds(from, srcChains, srcItems, src) && from != arr && srcItems !! items
      modifies this, arr, items
      ensures Holds(from, srcChains, srcItems, src) && from != arr && srcItems !! items
      ensures Sound() && contents == Added(old(contents), k, d)
      ensures size == if old(counter) + 1 == old(size) then 2 * old(size) else old(size)
      ensures fresh(items - old(items)) && (arr == old(arr) || fresh(arr))
      decreases if counter + 1 == size then 1 else 0, 1
    {
      assert Holds(from, srcChains, srcItems, src);
      var _ := Insert(k, d);
      assert Holds(from, srcChains, srcItems, src);
    }

    /** One turn of the loop over a bucket: a copy of one pair, and the next node. */
    method CopyItem(arrayToCopy: array<HtItem?<D>>, ghost index: int, ghost m: map<int, D>, ghost src: map<int, D>,
                    ghost srcChains: seq<seq<HtItem<D>>>, ghost srcItems: set<HtItem<D>>, ghost s0: int,
                    item: HtItem<D>, ghost p: int) returns (next: HtItem?<D>)
      requires Copying(arrayToCopy, srcChains, srcItems, src, m, s0, index, p) && 0 <= index < arrayToCopy.Length
      requires 0 <= p < |srcChains[index]| && item == srcChains[index][p]
      modifies this, arr, items
      ensures Copying(arrayToCopy, srcChains, srcItems, src, m, s0, index, p + 1)
      ensures size == old(size) || size == 2 * old(size)
      ensures next == At(srcChains[index], p + 1)
      ensures fresh(items - old(items)) && (arr == old(arr) || fresh(arr))
      decreases if |src| < s0 then 0 else 1, 2
    {
      assert BucketAt(arrayToCopy, srcChains, srcItems, src, index);
      assert ItemAt(srcChains, srcItems, src, index, p) && LinkAt(srcChains[index], p);
      CopyOne(arrayToCopy, srcChains, srcItems, src, m, index, p);
      InsertBeside(item.key, item.data, arrayToCopy, srcChains, srcItems, src);
      next := item.next;
    }

    /** Inserts copies of all pairs of another table; keys that both have keep the value they have here. */
    method MergeHTs(targetHt: HashTable<D>) returns (res: Status)
      requires Valid() && targetHt.Valid() && targetHt != this && targetHt.arr != arr && targetHt.items !! items
      modifies this, arr, items
      ensures Valid() && res == SUCCESS && contents == targetHt.contents + old(contents) && size >= old(size)
      ensures fresh(items - old(items)) && (arr == old(arr) || fresh(arr))
      ensures unchanged(targetHt) && unchanged(targetHt.arr) && unchanged(targetHt.items)
    {
      CopiedAll(targetHt.arr, targetHt.contents, targetHt.chains, targetHt.items, contents);
      CopyBuckets(targetHt.arr, targetHt.size, contents, targetHt.contents, targetHt.chains, targetHt.items, 0);
      res := SUCCESS;
    }

    // ----- removal -----

    method Remove(key: int) returns (res: Status)
      requires Valid() && key >= 0
      modifies this, arr, items
      ensures Valid() && size == old(size)
      ensures res == if key in old(contents) then SUCCESS else FAILURE
      ensures contents == old(contents) - {key}
      ensures fresh(items - old(items)) && (arr == old(arr) || fresh(arr))
    {
      var index := Slot(key, size);
      KeysHere(arr, chains, items, contents, key);
      ghost var p;
      res, p := Unlink(index, key);
      if res == SUCCESS {
        Unstocked(chains, items, contents, index, p);
        counter := counter - 1;
        chains := chains[index := Without(chains[index], p)];
        contents := contents - {key};
        var _ := ReHash();
      }
    }

    /** Takes the node of a key out of its bucket; nothing else moves. */
    method Unlink(index: int, key: int) returns (res: Status, ghost p: nat)
      requires Sound() && 0 <= index < size
      modifies arr, items
      ensures res == if Has(chains[index], key) then SUCCESS else FAILURE
      ensures res == SUCCESS ==> p < |chains[index]| && chains[index][p].key == key
      ensures forall b :: 0 <= b < |chains| ==> Stocked(chains, items, contents, b)
      ensures forall b :: 0 <= b < |chains| && (b != index || res == FAILURE) ==> Linked(arr[b], chains[b])
      ensures res == SUCCESS ==> Linked(arr[index], Without(chains[index], p))
    {
      assert BucketAt(arr, chains, items, contents, index);
      var current := arr[index];
      if current == null {
        res, p := FAILURE, 0;
      } else if current.key == key {
        arr[index] := current.next;
        res, p := SUCCESS, 0;
        forall j | 0 <= j < |chains[index]| - 1
          ensures LinkAt(Without(chains[index], 0), j)
        {
          assert LinkAt(chains[index], j + 1);
        }
        assert LinkAt(chains[index], 0);
      } else {
        res, p := UnlinkAfter(current, key, chains[index]);
      }
      Untouched(index);
    }
  }

  /** The rest of a removal: the node of a key is taken out from behind the head of its chain. */
  method UnlinkAfter<D>(head: HtItem<D>, key: int, ghost chain: seq<HtItem<D>>) returns (res: Status, ghost p: nat)
    requires Linked(head, chain) && head.key != key
    modifies chain
    ensures res == if Has(chain, key) then SUCCESS else FAILURE
    ensures res == SUCCESS ==> p < |chain| && chain[p].key == key && Linked(head, Without(chain, p))
    ensures res == FAILURE ==> Linked(head, chain)
    ensures forall i :: 0 <= i < |chain| ==> chain[i].data == old(chain[i].data)
  {
    var current := head;
    assert LinkAt(chain, 0);
    var next := current.next;
    p := 1;
    while next != null
      invariant 1 <= p <= |chain| && next == At(chain, p) && current == chain[p - 1]
      invariant forall j :: 0 <= j < p ==> chain[j].key != key
      decreases |chain| - p
    {
      assert LinkAt(chain, p);
      if next.key == key {
        Distinct(head, chain);
        current.next := next.next;
        forall j | 0 <= j < |chain| - 1
          ensures LinkAt(Without(chain, p), j)
        {
          assert old(LinkAt(chain, if j < p then j else j + 1));
        }
        return SUCCESS, p;
      }
      current := next;
      next := current.next;
      p := p + 1;
    }
    res := FAILURE;
  }
}
