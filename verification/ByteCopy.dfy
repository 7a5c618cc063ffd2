/**
 * A byte copy between two regions of one memory that may overlap in any way. A negative count reverses the bytes.
 * Locals are named after the registers: rax and rbx hold addresses, r8 counts down, r9 counts up.
 */
module ByteCopy {
  type Byte = b: int | 0 <= b < 256

  const INT_MIN := -0x8000_0000
  const INT_MAX := 0x7FFF_FFFF

  function Count(num: int): nat {
    if num >= 0 then num else -num
  }

  /** What memory should look like afterwards: every byte of the destination comes from the old source. */
  function Copied(m: seq<Byte>, source: int, destination: int, num: int): (r: seq<Byte>)
    requires 0 <= source && source + Count(num) <= |m| && 0 <= destination && destination + Count(num) <= |m|
    ensures |r| == |m|
  {
    seq(|m|, x requires 0 <= x < |m| =>
          if destination <= x < destination + Count(num) then
            m[if num >= 0 then source + (x - destination) else source + Count(num) - 1 - (x - destination)]
          else m[x])
  }

  lemma {:induction false} ReversedAt(m: seq<Byte>, r: seq<Byte>, a: int, b: int, n: nat, k: int)
    requires 0 <= a && a + n <= |m| && 0 <= b && b + n <= |m| && r == Copied(m, a, b, 0 - n) && 0 <= k < n
    ensures r[b + k] == m[a + n - 1 - k]
  {
    assert Count(0 - n) == n;
    assert Copied(m, a, b, 0 - n)[b + k] == m[a + n - 1 - k];
  }

  /** Reversing twice is copying, whatever the regions, and reversing in place undoes itself. */
  lemma {:induction false} ReverseTwice(m: seq<Byte>, once: seq<Byte>, twice: seq<Byte>, a: int, b: int, c: int, n: nat)
    requires 0 <= a && a + n <= |m| && 0 <= b && b + n <= |m| && 0 <= c && c + n <= |m|
    requires once == Copied(m, a, b, 0 - n) && twice == Copied(once, b, c, 0 - n)
    ensures |twice| == |m| && twice[c..c + n] == m[a..a + n]
    ensures a == b == c ==> twice == m
  {
    forall x | c <= x < c + n
      ensures twice[x] == m[a + (x - c)]
    {
      ReversedAt(once, twice, b, c, n, x - c);
      ReversedAt(m, once, a, b, n, n - 1 - (x - c));
    }
    forall x | 0 <= x < |m| && a == b == c
      ensures twice[x] == m[x]
    {
      assert a <= x < a + n || (twice[x] == Copied(once, b, c, 0 - n)[x] && once[x] == Copied(m, a, b, 0 - n)[x]);
    }
  }

  method Copy(mem: array<Byte>, source: int, destination: int, num: int)
    requires INT_MIN <= num <= INT_MAX
    requires 0 <= source && source + Count(num) <= mem.Length
    requires 0 <= destination && destination + Count(num) <= mem.Length
    modifies mem
    ensures mem[..] == Copied(old(mem[..]), source, destination, num)
  {
    var r8, rax, rbx := num, source, destination;
    if r8 == 0 {
      return;
    }
    if r8 > 0 {
      if rbx == rax {
        return;
      } else if rbx - rax < 0 {
        Forward(mem, rax, rbx, r8);
      } else {
        Backward(mem, rax, rbx, r8);
      }
    } else {
      r8 := (-1 * num) % 0x1_0000_0000;
      r8 := r8 - 1;
      if rbx == rax {
        Swap(mem, rax, r8);
      } else if rbx - rax > 0 {
        SourcePrior(mem, rax, rbx, r8);
      } else {
        DestinationPrior(mem, rax, rbx, r8);
      }
    }
  }

  /** Two reversals with a stop at `b` put the bytes at `c` in their old order, however the three regions overlap. */
  method CopyBack(mem: array<Byte>, a: int, b: int, c: int, n: nat)
    requires n <= INT_MAX
    requires 0 <= a && a + n <= mem.Length && 0 <= b && b + n <= mem.Length && 0 <= c && c + n <= mem.Length
    modifies mem
    ensures mem[c..c + n] == old(mem[a..a + n])
    ensures a == b == c ==> mem[..] == old(mem[..])
  {
    hide Copied;
    Copy(mem, a, b, 0 - n);
    ghost var once := mem[..];
    Copy(mem, b, c, 0 - n);
    ReverseTwice(old(mem[..]), once, mem[..], a, b, c, n);
  }

  /** The destination starts before the source: upwards. */
  method Forward(mem: array<Byte>, rax: int, rbx: int, r8: int)
    requires 0 <= rbx < rax && 0 < r8 && rax + r8 <= mem.Length
    modifies mem
    ensures mem[..] == Copied(old(mem[..]), rax, rbx, r8)
  {
    var r9 := 0;
    while r8 != r9
      invariant 0 <= r9 <= r8
      invariant forall x :: rbx <= x < rbx + r9 ==> mem[x] == old(mem[rax + (x - rbx)])
      invariant forall x :: 0 <= x < mem.Length && !(rbx <= x < rbx + r9) ==> mem[x] == old(mem[x])
    {
      var cl := mem[rax + r9];
      mem[rbx + r9] := cl;
      r9 := r9 + 1;
    }
    ghost var want := Copied(old(mem[..]), rax, rbx, r8);
    assert forall x :: 0 <= x < mem.Length ==> mem[x] == want[x];
    assert mem[..] == want;
  }

  /** The source starts before the destination: downwards. */
  method Backward(mem: array<Byte>, rax: int, rbx: int, count: int)
    requires 0 <= rax < rbx && 0 < count && rbx + count <= mem.Length
    modifies mem
    ensures mem[..] == Copied(old(mem[..]), rax, rbx, count)
  {
    var r8 := count;
    while r8 != 0
      invariant 0 <= r8 <= count
      invariant forall x :: rbx + r8 <= x < rbx + count ==> mem[x] == old(mem[rax + (x - rbx)])
      invariant forall x :: 0 <= x < mem.Length && !(rbx + r8 <= x < rbx + count) ==> mem[x] == old(mem[x])
      decreases r8
    {
      r8 := r8 - 1;
      var cl := mem[rax + r8];
      mem[rbx + r8] := cl;
    }
    ghost var want := Copied(old(mem[..]), rax, rbx, count);
    assert forall x :: 0 <= x < mem.Length ==> mem[x] == want[x];
    assert mem[..] == want;
  }

  /** Reverses the bytes from `rax` to `rax + last` in place, from both ends. */
  method Swap(mem: array<Byte>, rax: int, last: int)
    requires 0 <= rax && 0 <= last && rax + last < mem.Length
    modifies mem
    ensures mem[..] == Copied(old(mem[..]), rax, rax, -(last + 1))
  {
    var r8, r9 := last, 0;
    while r8 > r9
      invariant 0 <= r9 && r8 == last - r9 && -1 <= r8 - r9
      invariant forall x :: rax <= x < rax + r9 ==> mem[x] == old(mem[rax + last - (x - rax)])
      invariant forall x :: rax + r8 < x <= rax + last ==> mem[x] == old(mem[rax + last - (x - rax)])
      invariant forall x :: 0 <= x < mem.Length && !(rax <= x < rax + r9) && !(rax + r8 < x <= rax + last) ==>
                  mem[x] == old(mem[x])
      decreases r8 - r9
    {
      var cl := mem[rax + r8];
      var sil := mem[rax + r9];
      mem[rax + r9] := cl;
      mem[rax + r8] := sil;
      r8 := r8 - 1;
      r9 := r9 + 1;
    }
    ghost var want := Copied(old(mem[..]), rax, rax, -(last + 1));
    assert forall x :: 0 <= x < mem.Length ==> mem[x] == want[x];
    assert mem[..] == want;
  }

  /** What is left to do once the walk has met the destination, or has ended: reverse the rest where it is. */
  lemma {:induction false} SourceRest(was: seq<Byte>, mid: seq<Byte>, source: int, rbx: int, last: int, r8: int)
    requires 0 <= source < rbx && -1 <= r8 <= last && rbx + last < |was| == |mid|
    requires r8 == -1 || source + (last - r8) == rbx
    requires forall x :: rbx + r8 < x <= rbx + last ==> mid[x] == was[source + last - (x - rbx)]
    requires forall x :: 0 <= x < |was| && !(rbx + r8 < x <= rbx + last) ==> mid[x] == was[x]
    ensures Copied(mid, rbx, rbx, -(r8 + 1)) == Copied(was, source, rbx, -(last + 1))
  {
    var rest, want := Copied(mid, rbx, rbx, -(r8 + 1)), Copied(was, source, rbx, -(last + 1));
    forall x | 0 <= x < |was|
      ensures rest[x] == want[x]
    {
      if rbx <= x <= rbx + r8 {
        assert rest[x] == mid[rbx + r8 - (x - rbx)];
      }
    }
  }

  lemma {:induction false} DestinationRest(was: seq<Byte>, mid: seq<Byte>, rax: int, destination: int, last: int, r8: int)
    requires 0 <= destination < rax && -1 <= r8 <= last && rax + last < |was| == |mid|
    requires r8 == -1 || destination + (last - r8) == rax
    requires forall x :: destination <= x < destination + (last - r8) ==> mid[x] == was[rax + last - (x - destination)]
    requires forall x :: 0 <= x < |was| && !(destination <= x < destination + (last - r8)) ==> mid[x] == was[x]
    ensures Copied(mid, rax, rax, -(r8 + 1)) == Copied(was, rax, destination, -(last + 1))
  {
    var rest, want := Copied(mid, rax, rax, -(r8 + 1)), Copied(was, rax, destination, -(last + 1));
    forall x | 0 <= x < |was|
      ensures rest[x] == want[x]
    {
      if rax <= x <= rax + r8 {
        assert rest[x] == mid[rax + r8 - (x - rax)];
      }
    }
  }

  /** Reversing with the source first: the part of it that comes before the destination, then the rest in place. */
  method SourcePrior(mem: array<Byte>, source: int, rbx: int, last: int)
    requires 0 <= source < rbx && 0 <= last && rbx + last < mem.Length
    modifies mem
    ensures mem[..] == Copied(old(mem[..]), source, rbx, -(last + 1))
  {
    var rax, r8, overlap := source, last, false;
    while r8 != -1 && !overlap
      invariant -1 <= r8 <= last && rax == source + (last - r8)
      invariant if overlap then r8 != -1 && rax == rbx else r8 == -1 || rax < rbx
      invariant forall x :: rbx + r8 < x <= rbx + last ==> mem[x] == old(mem[source + last - (x - rbx)])
      invariant forall x :: 0 <= x < mem.Length && !(rbx + r8 < x <= rbx + last) ==> mem[x] == old(mem[x])
      decreases r8
    {
      var cl := mem[rax];
      mem[rbx + r8] := cl;
      rax := rax + 1;
      r8 := r8 - 1;
      overlap := r8 != -1 && rbx == rax;
    }
    SourceRest(old(mem[..]), mem[..], source, rbx, last, r8);
    if overlap {
      Swap(mem, rax, r8);
    } else {
      assert mem[..] == Copied(mem[..], rbx, rbx, 0);
    }
  }

  /** Reversing with the destination first, symmetrically. */
  method DestinationPrior(mem: array<Byte>, rax: int, destination: int, last: int)
    requires 0 <= destination < rax && 0 <= last && rax + last < mem.Length
    modifies mem
    ensures mem[..] == Copied(old(mem[..]), rax, destination, -(last + 1))
  {
    var rbx, r8, overlap := destination, last, false;
    while r8 != -1 && !overlap
      invariant -1 <= r8 <= last && rbx == destination + (last - r8)
      invariant if overlap then r8 != -1 && rbx == rax else r8 == -1 || rbx < rax
      invariant forall x :: destination <= x < rbx ==> mem[x] == old(mem[rax + last - (x - destination)])
      invariant forall x :: 0 <= x < mem.Length && !(destination <= x < rbx) ==> mem[x] == old(mem[x])
      decreases r8
    {
      var cl := mem[rax + r8];
      mem[rbx] := cl;
      r8 := r8 - 1;
      rbx := rbx + 1;
      overlap := r8 != -1 && rbx == rax;
    }
    DestinationRest(old(mem[..]), mem[..], rax, destination, last, r8);
    if overlap {
      Swap(mem, rax, r8);
    } else {
      assert mem[..] == Copied(mem[..], rax, rax, 0);
    }
  }
}
