/**
 * Repeated byte substitution and row shifting on a square matrix, in place: SubBytes and ShiftRows of sections 5.1.1
 * and 5.1.2 of FIPS 197 for any size and any number of iterations.
 */
module Encryption {
  const BYTES := 256

  predicate IsByte(v: int) { 0 <= v < BYTES }

  ghost predicate ByteTable(sbox: seq<int>) {
    |sbox| == BYTES && forall v :: 0 <= v < BYTES ==> IsByte(sbox[v])
  }

  type Matrix = seq<seq<int>>

  ghost predicate Square(m: Matrix) {
    forall i :: 0 <= i < |m| ==> |m[i]| == |m| && forall j :: 0 <= j < |m| ==> IsByte(m[i][j])
  }

  // ----- what encryption computes -----

  /** A byte after `k` substitutions. */
  ghost function Substituted(sbox: seq<int>, k: nat, v: int): (r: int)
    requires ByteTable(sbox) && IsByte(v)
    ensures IsByte(r)
  {
    if k == 0 then v else sbox[Substituted(sbox, k - 1, v)]
  }

  /** Which column a cell comes from after `k` iterations: row `i` has moved left `i` places each time. */
  ghost function Source(n: nat, k: int, i: int, j: int): (c: int)
    requires n > 0
    ensures 0 <= c < n
  {
    (j + k * i) % n
  }

  ghost function Encrypted(m: Matrix, sbox: seq<int>, k: nat): (r: Matrix)
    requires Square(m) && ByteTable(sbox)
    ensures Square(r) && |r| == |m|
  {
    seq(|m|, i requires 0 <= i < |m| =>
      seq(|m|, j requires 0 <= j < |m| => Substituted(sbox, k, m[i][Source(|m|, k, i, j)])))
  }

  lemma {:induction false} ModShift(a: int, q: int, n: int)
    requires n > 0
    ensures (a + q * n) % n == a % n
    decreases if q < 0 then -q else q
  {
    if q > 0 {
      ModShift(a, q - 1, n);
      assert a + q * n == a + (q - 1) * n + n;
      ModStep(a + (q - 1) * n, n);
    } else if q < 0 {
      ModShift(a, q + 1, n);
      assert a + (q + 1) * n == a + q * n + n;
      ModStep(a + q * n, n);
    }
  }

  lemma {:induction false} ModStep(a: int, n: int)
    requires n > 0
    ensures (a + n) % n == a % n
  {
    ModUnique(a + n, a / n + 1, a % n, n);
  }

  lemma {:induction false} ModUnique(x: int, q: int, r: int, n: int)
    requires n > 0 && 0 <= r < n && x == q * n + r
    ensures x % n == r
  {
    var d := x / n - q;
    assert x == (x / n) * n + x % n;
    assert d * n == r - x % n;
    assert d > 0 ==> d * n >= n;
    assert d < 0 ==> d * n <= -n;
  }

  lemma {:induction false} ModSum(a: int, b: int, n: int)
    requires n > 0
    ensures (a % n + b) % n == (a + b) % n
  {
    ModShift(a % n + b, a / n, n);
    assert a % n + b + (a / n) * n == a + b;
  }

  /** Following a cell back through one more iteration. */
  lemma {:induction false} SourceStep(n: nat, k: nat, i: int, j: int)
    requires n > 0
    ensures Source(n, k, i, Source(n, 1, i, j)) == Source(n, k + 1, i, j)
  {
    ModSum(j + 1 * i, k * i, n);
    assert j + 1 * i + k * i == j + (k + 1) * i;
  }

  lemma {:induction false} SubstitutedOnce(sbox: seq<int>, k: nat, v: int)
    requires ByteTable(sbox) && IsByte(v)
    ensures Substituted(sbox, 1, Substituted(sbox, k, v)) == Substituted(sbox, k + 1, v)
  {
    var w := Substituted(sbox, k, v);
    assert Substituted(sbox, 0, w) == w;
  }

  /** One more iteration. */
  lemma {:induction false} EncryptedStep(m: Matrix, sbox: seq<int>, k: nat)
    requires Square(m) && ByteTable(sbox)
    ensures Encrypted(Encrypted(m, sbox, k), sbox, 1) == Encrypted(m, sbox, k + 1)
  {
    var once, all := Encrypted(Encrypted(m, sbox, k), sbox, 1), Encrypted(m, sbox, k + 1);
    forall i | 0 <= i < |m|
      ensures once[i] == all[i]
    {
      forall j | 0 <= j < |m|
        ensures once[i][j] == all[i][j]
      {
        SourceStep(|m|, k, i, j);
        SubstitutedOnce(sbox, k, m[i][Source(|m|, k + 1, i, j)]);
      }
    }
  }

  // ----- inversion -----

  ghost predicate Undoes(inverse: seq<int>, sbox: seq<int>) {
    ByteTable(sbox) && ByteTable(inverse) && forall v :: 0 <= v < BYTES ==> inverse[sbox[v]] == v
  }

  lemma {:induction false} SubstitutedFirst(sbox: seq<int>, k: nat, v: int)
    requires ByteTable(sbox) && IsByte(v)
    ensures Substituted(sbox, k, sbox[v]) == Substituted(sbox, k + 1, v)
  {
    if k > 0 {
      SubstitutedFirst(sbox, k - 1, v);
    } else {
      assert Substituted(sbox, 0, v) == v;
    }
  }

  lemma {:induction false} SubstitutionUndone(sbox: seq<int>, inverse: seq<int>, k: nat, v: int)
    requires Undoes(inverse, sbox) && IsByte(v)
    ensures Substituted(inverse, k, Substituted(sbox, k, v)) == v
  {
    if k > 0 {
      var w := Substituted(sbox, k - 1, v);
      SubstitutionUndone(sbox, inverse, k - 1, v);
      SubstitutedFirst(inverse, k - 1, sbox[w]);
      assert inverse[sbox[w]] == w;
    }
  }

  /** Moving right as often and substituting back. */
  ghost function Decrypted(m: Matrix, inverse: seq<int>, k: nat): (r: Matrix)
    requires Square(m) && ByteTable(inverse)
    ensures Square(r) && |r| == |m|
  {
    seq(|m|, i requires 0 <= i < |m| =>
      seq(|m|, j requires 0 <= j < |m| => Substituted(inverse, k, m[i][Source(|m|, 0 - k, i, j)])))
  }

  /** Encryption loses nothing: with a permutation as its table it can be undone, for every size and iteration count. */
  lemma {:induction false} EncryptionInvertible(m: Matrix, sbox: seq<int>, inverse: seq<int>, k: nat)
    requires Square(m) && Undoes(inverse, sbox)
    ensures Decrypted(Encrypted(m, sbox, k), inverse, k) == m
  {
    var e := Encrypted(m, sbox, k);
    var d := Decrypted(e, inverse, k);
    forall i | 0 <= i < |m|
      ensures d[i] == m[i]
    {
      forall j | 0 <= j < |m|
        ensures d[i][j] == m[i][j]
      {
        SourceBack(|m|, k, i, j);
        SubstitutionUndone(sbox, inverse, k, m[i][j]);
      }
    }
  }

  lemma {:induction false} SourceBack(n: nat, k: nat, i: int, j: int)
    requires 0 <= j < n
    ensures Source(n, k, i, Source(n, 0 - k, i, j)) == j
  {
    var t := k * i;
    assert (0 - k) * i == -t;
    assert Source(n, 0 - k, i, j) == (j - t) % n;
    ModSum(j - t, t, n);
    assert j - t + t == j;
    ModUnique(j, 0, j, n);
  }

  // ----- the program -----

  ghost predicate Fits(size: nat, mat: array2<int>) {
    size <= mat.Length0 && size <= mat.Length1
  }

  ghost function Grid(size: nat, mat: array2<int>): (m: Matrix)
    requires Fits(size, mat)
    reads mat
  {
    seq(size, i requires 0 <= i < size && Fits(size, mat) reads mat =>
      seq(size, j requires 0 <= j < size && 0 <= i < size && Fits(size, mat) reads mat => mat[i, j]))
  }

  /** Nothing outside the square changes. */
  twostate predicate OnlySquare(size: nat, mat: array2<int>)
    reads mat
  {
    forall i, j :: 0 <= i < mat.Length0 && 0 <= j < mat.Length1 && !(i < size && j < size) ==> mat[i, j] == old(mat[i, j])
  }

  method ByteSubstitution(size: nat, mat: array2<int>, sbox: seq<int>)
    requires Fits(size, mat) && ByteTable(sbox) && Square(Grid(size, mat))
    modifies mat
    ensures forall i, j :: 0 <= i < size && 0 <= j < size ==> mat[i, j] == sbox[old(Grid(size, mat))[i][j]]
    ensures OnlySquare(size, mat)
  {
    ghost var was := Grid(size, mat);
    for row := 0 to size
      invariant forall i, j :: 0 <= i < row && 0 <= j < size ==> mat[i, j] == sbox[was[i][j]]
      invariant forall i, j :: row <= i < size && 0 <= j < size ==> mat[i, j] == was[i][j]
      invariant OnlySquare(size, mat)
    {
      for column := 0 to size
        invariant forall i, j :: 0 <= i < row && 0 <= j < size ==> mat[i, j] == sbox[was[i][j]]
        invariant forall j :: 0 <= j < column ==> mat[row, j] == sbox[was[row][j]]
        invariant forall j :: column <= j < size ==> mat[row, j] == was[row][j]
        invariant forall i, j :: row < i < size && 0 <= j < size ==> mat[i, j] == was[i][j]
        invariant OnlySquare(size, mat)
      {
        var index := mat[row, column];
        mat[row, column] := sbox[index];
      }
    }
  }

  /** The column that moves to column `j` when row `i` is shifted left `i` places. */
  function Shifted(size: nat, i: nat, j: nat): (c: nat)
    requires i < size && j < size
    ensures c < size
  {
    if i + j < size then i + j else i + j - size
  }

  method ShiftRows(size: nat, mat: array2<int>)
    requires Fits(size, mat)
    modifies mat
    ensures forall i, j :: 0 <= i < size && 0 <= j < size ==>
              mat[i, j] == old(Grid(size, mat))[i][Shifted(size, i, j)]
    ensures OnlySquare(size, mat)
  {
    ghost var was := Grid(size, mat);
    var temp := new int[size];
    var i := 1;
    while i < size
      invariant 1 <= i
      invariant forall x, j :: 0 <= x < i && x < size && 0 <= j < size ==>
                  mat[x, j] == was[x][Shifted(size, x, j)]
      invariant forall x, j :: i <= x < size && 0 <= j < size ==> mat[x, j] == was[x][j]
      invariant OnlySquare(size, mat)
    {
      ShiftRow(size, mat, temp, i);
      i := i + 1;
    }
  }

  /** Row `i` is written, shifted, to the temporary row and copied back. */
  method ShiftRow(size: nat, mat: array2<int>, temp: array<int>, i: nat)
    requires Fits(size, mat) && temp.Length == size && 0 < i < size
    modifies mat, temp
    ensures forall j :: 0 <= j < size ==> mat[i, j] == old(mat[i, Shifted(size, i, j)])
    ensures forall x, j :: 0 <= x < mat.Length0 && 0 <= j < mat.Length1 && !(x == i && j < size) ==>
              mat[x, j] == old(mat[x, j])
  {
    FillRow(size, mat, temp, i);
    CopyRow(size, mat, temp, i);
  }

  method CopyRow(size: nat, mat: array2<int>, temp: array<int>, i: nat)
    requires Fits(size, mat) && temp.Length == size && i < size
    modifies mat
    ensures forall j :: 0 <= j < size ==> mat[i, j] == temp[j]
    ensures forall x, j :: 0 <= x < mat.Length0 && 0 <= j < mat.Length1 && !(x == i && j < size) ==>
              mat[x, j] == old(mat[x, j])
  {
    for j := 0 to size
      invariant forall c :: 0 <= c < j ==> mat[i, c] == temp[c]
      invariant forall x, c :: 0 <= x < mat.Length0 && 0 <= c < mat.Length1 && !(x == i && c < j) ==>
                  mat[x, c] == old(mat[x, c])
    {
      mat[i, j] := temp[j];
    }
  }

  method FillRow(size: nat, mat: array2<int>, temp: array<int>, i: nat)
    requires Fits(size, mat) && temp.Length == size && 0 < i < size
    modifies temp
    ensures forall c :: 0 <= c < size ==> temp[c] == mat[i, Shifted(size, i, c)]
  {
    for j := 0 to size
      invariant forall c :: 0 <= c < j ==> temp[if c < i then size + c - i else c - i] == mat[i, c]
    {
      if j - i < 0 {
        temp[size + j - i] := mat[i, j];
      } else {
        temp[j - i] := mat[i, j];
      }
    }
    forall c | 0 <= c < size
      ensures temp[c] == mat[i, Shifted(size, i, c)]
    {
      var from := Shifted(size, i, c);
      assert temp[if from < i then size + from - i else from - i] == mat[i, from];
    }
  }

  method Encryption(iterations: nat, size: nat, mat: array2<int>, sbox: seq<int>)
    requires Fits(size, mat) && ByteTable(sbox) && Square(Grid(size, mat))
    modifies mat
    ensures Grid(size, mat) == Encrypted(old(Grid(size, mat)), sbox, iterations)
    ensures OnlySquare(size, mat)
  {
    ghost var was := Grid(size, mat);
    EncryptedNever(was, sbox);
    for iter := 0 to iterations
      invariant Grid(size, mat) == Encrypted(was, sbox, iter) && OnlySquare(size, mat)
    {
      EncryptedStep(was, sbox, iter);
      Iteration(size, mat, sbox);
    }
  }

  method Iteration(size: nat, mat: array2<int>, sbox: seq<int>)
    requires Fits(size, mat) && ByteTable(sbox) && Square(Grid(size, mat))
    modifies mat
    ensures Grid(size, mat) == Encrypted(old(Grid(size, mat)), sbox, 1)
    ensures OnlySquare(size, mat)
  {
    ghost var was := Grid(size, mat);
    ByteSubstitution(size, mat, sbox);
    ShiftRows(size, mat);
    ghost var want := Encrypted(was, sbox, 1);
    forall i, j | 0 <= i < size && 0 <= j < size
      ensures mat[i, j] == want[i][j]
    {
      SourceOnce(size, i, j);
      assert Substituted(sbox, 0, was[i][Source(size, 1, i, j)]) == was[i][Source(size, 1, i, j)];
    }
    assert forall i :: 0 <= i < size ==> Grid(size, mat)[i] == want[i];
  }

  lemma {:induction false} SourceOnce(n: nat, i: int, j: int)
    requires 0 <= i < n && 0 <= j < n
    ensures Source(n, 1, i, j) == Shifted(n, i, j)
  {
    if i + j < n {
      ModUnique(j + 1 * i, 0, i + j, n);
    } else {
      ModUnique(j + 1 * i, 1, i + j - n, n);
    }
  }

  lemma {:induction false} EncryptedNever(m: Matrix, sbox: seq<int>)
    requires Square(m) && ByteTable(sbox)
    ensures Encrypted(m, sbox, 0) == m
  {
    var e := Encrypted(m, sbox, 0);
    forall i | 0 <= i < |m|
      ensures e[i] == m[i]
    {
      forall j | 0 <= j < |m|
        ensures e[i][j] == m[i][j]
      {
        ModUnique(j + 0 * i, 0, j, |m|);
      }
    }
  }
}
