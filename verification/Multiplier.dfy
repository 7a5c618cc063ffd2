/**
 * Two iterative 32 by 32 multipliers: the plain one adds four shifted partial products, the fast one skips those
 * that a zero upper half makes zero. Combinational logic is pure; registers and inferred latches are state.
 */
module Multiplier {

  const HALF := 0x1_0000
  const WORD := 0x1_0000_0000
  const LONG := 0x1_0000_0000_0000_0000

  type Word = w: int | 0 <= w < WORD

  // ----- arithmetic unit -----

  function Low(w: Word): (h: int)
    ensures 0 <= h < HALF
  {
    w % HALF
  }

  function High(w: Word): (h: int)
    ensures 0 <= h < HALF
  {
    w / HALF
  }

  /** The shifted partial product that the selectors pick, in 64 bits. */
  function Partial(a: Word, b: Word, aSel: bool, bSel: bool, shiftSel: int): int {
    var aOut := if aSel then High(a) else Low(a);
    var bOut := if bSel then High(b) else Low(b);
    var result := (aOut * bOut) % WORD;
    match shiftSel
    case 0 => result
    case 2 => (result * WORD) % LONG
    case _ => (result * HALF) % LONG
  }

  /** The product register at the next clock edge. */
  function NextProduct(product: int, out: Outputs, a: Word, b: Word): int {
    if out.clrProd then 0
    else if out.updProd then (product + Partial(a, b, out.aSel, out.bSel, out.shiftSel)) % LONG
    else product
  }

  // ----- state machines -----

  datatype Fsm = Idle | NewMultiply | A0B0 | A1B0 | A0B1

  datatype Outputs = Outputs(next: Fsm, busy: bool, aSel: bool, bSel: bool, shiftSel: int, updProd: bool, clrProd: bool)

  /** The plain machine; `clrProd` holds its last value where it is not assigned. */
  function PlainOutputs(current: Fsm, start: bool, clrHeld: bool): Outputs {
    match current
    case Idle =>
      if start then Outputs(NewMultiply, false, false, false, 0, false, true)
      else Outputs(Idle, false, false, false, 0, false, clrHeld)
    case NewMultiply => Outputs(A0B0, true, false, false, 0, true, false)
    case A0B0 => Outputs(A1B0, true, true, false, 1, true, false)
    case A1B0 => Outputs(A0B1, true, false, true, 1, true, false)
    case A0B1 => Outputs(Idle, true, true, true, 2, true, false)
  }

  /** The fast machine reads which upper halves are zero. */
  function FastOutputs(current: Fsm, start: bool, clrHeld: bool, aMswIs0: bool, bMswIs0: bool): Outputs {
    match current
    case Idle =>
      if start then Outputs(NewMultiply, false, false, false, 0, false, true)
      else Outputs(Idle, false, false, false, 0, false, clrHeld)
    case NewMultiply => Outputs(A0B0, true, false, false, 0, true, false)
    case A0B0 =>
      if aMswIs0 && bMswIs0 then Outputs(Idle, true, false, false, 0, false, clrHeld)
      else if aMswIs0 then Outputs(A0B1, true, false, true, 1, true, false)
      else Outputs(A1B0, true, true, false, 1, true, false)
    case A1B0 =>
      if bMswIs0 then Outputs(Idle, true, false, false, 0, false, clrHeld)
      else Outputs(A0B1, true, false, true, 1, true, false)
    case A0B1 => Outputs(Idle, true, true, true, 2, true, false)
  }

  datatype Plain = Plain(current: Fsm, product: int, clrHeld: bool)

  datatype Fast = Fast(current: Fsm, product: int, clrHeld: bool, aMswIs0: bool, bMswIs0: bool)

  function PlainCycle(m: Plain, start: bool, a: Word, b: Word): Plain {
    var out := PlainOutputs(m.current, start, m.clrHeld);
    Plain(out.next, NextProduct(m.product, out, a, b), out.clrProd)
  }

  /** The latched zero flags once the selectors have settled: they follow the operands only while both select the low half. */
  function Settled(m: Fast, start: bool, a: Word, b: Word): (bool, bool) {
    var out := FastOutputs(m.current, start, m.clrHeld, m.aMswIs0, m.bMswIs0);
    if !out.aSel && !out.bSel then (High(a) == 0, High(b) == 0) else (m.aMswIs0, m.bMswIs0)
  }

  function FastCycle(m: Fast, start: bool, a: Word, b: Word): Fast {
    var flags := Settled(m, start, a, b);
    var out := FastOutputs(m.current, start, m.clrHeld, flags.0, flags.1);
    Fast(out.next, NextProduct(m.product, out, a, b), out.clrProd, flags.0, flags.1)
  }

  predicate Busy(current: Fsm) { !current.Idle? }

  // ----- long multiplication -----

  /** The four partial products, one after the other. */
  function Sum0(a: Word, b: Word): int { Low(a) * Low(b) }
  function Sum1(a: Word, b: Word): int { Sum0(a, b) + High(a) * Low(b) * HALF }
  function Sum2(a: Word, b: Word): int { Sum1(a, b) + Low(a) * High(b) * HALF }
  function Sum3(a: Word, b: Word): int { Sum2(a, b) + High(a) * High(b) * WORD }

  lemma {:induction false} ProductBound(x: int, y: int, m: int, n: int)
    requires 0 <= x <= m && 0 <= y <= n
    ensures 0 <= x * y <= m * n
  {
    assert x * y <= x * n <= m * n;
  }

  lemma {:induction false} HalfProduct(x: int, y: int)
    requires 0 <= x < HALF && 0 <= y < HALF
    ensures 0 <= x * y <= 0xFFFE_0001 < WORD
  {
    ProductBound(x, y, 0xFFFF, 0xFFFF);
  }

  /** Shifts of a 32-bit product within 64 bits. */
  lemma {:induction false} ShiftExact(p: int)
    requires 0 <= p < WORD
    ensures p % WORD == p && (p * HALF) % LONG == p * HALF && (p * WORD) % LONG == p * WORD
  {
  }

  /** No bit is lost anywhere: the partial sums grow up to the exact product, which fits in 64 bits. */
  lemma {:induction false} LongMultiplication(a: Word, b: Word)
    ensures Sum3(a, b) == a * b
    ensures 0 <= Sum0(a, b) <= Sum1(a, b) <= Sum2(a, b) <= Sum3(a, b) < 0x1_0000_0000_0000_0000
  {
    var a0, a1, b0, b1 := Low(a), High(a), Low(b), High(b);
    HalfProduct(a0, b0);
    HalfProduct(a1, b0);
    HalfProduct(a0, b1);
    HalfProduct(a1, b1);
    calc {
      a * b;
      (a1 * HALF + a0) * b;
      a1 * HALF * b + a0 * b;
      a1 * HALF * (b1 * HALF + b0) + a0 * (b1 * HALF + b0);
      Sum3(a, b);
    }
  }

  /** What the arithmetic unit adds at each step. */
  lemma {:induction false} PartialExact(a: Word, b: Word)
    ensures Partial(a, b, false, false, 0) == Sum0(a, b)
    ensures Partial(a, b, true, false, 1) == Sum1(a, b) - Sum0(a, b)
    ensures Partial(a, b, false, true, 1) == Sum2(a, b) - Sum1(a, b)
    ensures Partial(a, b, true, true, 2) == Sum3(a, b) - Sum2(a, b)
  {
    PartialIs(a, b, false, false, 0);
    PartialIs(a, b, true, false, 1);
    PartialIs(a, b, false, true, 1);
    PartialIs(a, b, true, true, 2);
  }

  lemma {:induction false} PartialIs(a: Word, b: Word, aSel: bool, bSel: bool, shiftSel: int)
    requires 0 <= shiftSel < 4
    ensures var p := (if aSel then High(a) else Low(a)) * (if bSel then High(b) else Low(b));
            Partial(a, b, aSel, bSel, shiftSel) == if shiftSel == 0 then p else if shiftSel == 2 then p * WORD else p * HALF
  {
    var x, y := if aSel then High(a) else Low(a), if bSel then High(b) else Low(b);
    HalfProduct(x, y);
    ShiftExact(x * y);
  }

  // ----- runs -----

  datatype Input = Input(start: bool, a: Word, b: Word)

  /** What an observer notes: the operands of the multiplication under way, or last finished, and its busy cycles so far. */
  datatype Log = Nothing | Last(a: Word, b: Word, spent: nat)

  /** Operands are noted in the first busy cycle. */
  function NextLog(log: Log, current: Fsm, input: Input): Log {
    if current.NewMultiply? then Last(input.a, input.b, 1)
    else if Busy(current) && log.Last? then log.(spent := log.spent + 1)
    else log
  }

  /** Operands are held stable while busy. */
  predicate Stable(log: Log, current: Fsm, input: Input) {
    Busy(current) && !current.NewMultiply? ==> log.Last? && input.a == log.a && input.b == log.b
  }

  ghost predicate PlainRun(m: Plain, log: Log, inputs: seq<Input>, n: Plain, end: Log)
    decreases |inputs|
  {
    if inputs == [] then m == n && log == end
    else
      && Stable(log, m.current, inputs[0])
      && PlainRun(PlainCycle(m, inputs[0].start, inputs[0].a, inputs[0].b), NextLog(log, m.current, inputs[0]),
                  inputs[1..], n, end)
  }

  ghost predicate FastRun(m: Fast, log: Log, inputs: seq<Input>, n: Fast, end: Log)
    decreases |inputs|
  {
    if inputs == [] then m == n && log == end
    else
      && Stable(log, m.current, inputs[0])
      && FastRun(FastCycle(m, inputs[0].start, inputs[0].a, inputs[0].b), NextLog(log, m.current, inputs[0]),
                 inputs[1..], n, end)
  }

  /** What the product register holds in each state of the plain machine, and how many busy cycles have passed. */
  ghost predicate PlainInv(m: Plain, log: Log) {
    match m.current
    case Idle => log.Last? ==> !m.clrHeld && m.product == log.a * log.b && log.spent == 4
    case NewMultiply => m.product == 0
    case A0B0 => log.Last? && m.product == Sum0(log.a, log.b) && log.spent == 1
    case A1B0 => log.Last? && m.product == Sum1(log.a, log.b) && log.spent == 2
    case A0B1 => log.Last? && m.product == Sum2(log.a, log.b) && log.spent == 3
  }

  /** The next edge of the product register, for one partial product more. */
  lemma {:induction false} Adds(product: int, out: Outputs, a: Word, b: Word, before: int, after: int)
    requires !out.clrProd && out.updProd && product == before && 0 <= after < LONG
    requires Partial(a, b, out.aSel, out.bSel, out.shiftSel) == after - before
    ensures NextProduct(product, out, a, b) == after
  {
  }

  lemma {:induction false} PlainFirst(m: Plain, log: Log, input: Input)
    requires PlainInv(m, log) && m.current.NewMultiply?
    ensures PlainInv(PlainCycle(m, input.start, input.a, input.b), NextLog(log, m.current, input))
  {
    LongMultiplication(input.a, input.b);
    PartialExact(input.a, input.b);
    Adds(m.product, PlainOutputs(m.current, input.start, m.clrHeld), input.a, input.b, 0, Sum0(input.a, input.b));
  }

  lemma {:induction false} PlainSecond(m: Plain, log: Log, input: Input)
    requires PlainInv(m, log) && m.current.A0B0? && Stable(log, m.current, input)
    ensures PlainInv(PlainCycle(m, input.start, input.a, input.b), NextLog(log, m.current, input))
  {
    LongMultiplication(input.a, input.b);
    PartialExact(input.a, input.b);
    Adds(m.product, PlainOutputs(m.current, input.start, m.clrHeld), input.a, input.b,
         Sum0(input.a, input.b), Sum1(input.a, input.b));
  }

  lemma {:induction false} PlainThird(m: Plain, log: Log, input: Input)
    requires PlainInv(m, log) && m.current.A1B0? && Stable(log, m.current, input)
    ensures PlainInv(PlainCycle(m, input.start, input.a, input.b), NextLog(log, m.current, input))
  {
    LongMultiplication(input.a, input.b);
    PartialExact(input.a, input.b);
    Adds(m.product, PlainOutputs(m.current, input.start, m.clrHeld), input.a, input.b,
         Sum1(input.a, input.b), Sum2(input.a, input.b));
  }

  lemma {:induction false} PlainFourth(m: Plain, log: Log, input: Input)
    requires PlainInv(m, log) && m.current.A0B1? && Stable(log, m.current, input)
    ensures PlainInv(PlainCycle(m, input.start, input.a, input.b), NextLog(log, m.current, input))
  {
    LongMultiplication(input.a, input.b);
    PartialExact(input.a, input.b);
    Adds(m.product, PlainOutputs(m.current, input.start, m.clrHeld), input.a, input.b,
         Sum2(input.a, input.b), Sum3(input.a, input.b));
  }

  lemma {:induction false} PlainStep(m: Plain, log: Log, input: Input)
    requires PlainInv(m, log) && Stable(log, m.current, input)
    ensures PlainInv(PlainCycle(m, input.start, input.a, input.b), NextLog(log, m.current, input))
  {
    match m.current {
      case Idle =>
      case NewMultiply => PlainFirst(m, log, input);
      case A0B0 => PlainSecond(m, log, input);
      case A1B0 => PlainThird(m, log, input);
      case A0B1 => PlainFourth(m, log, input);
    }
  }

  /** The busy cycles of a fast multiplication. */
  function FastCycles(a: Word, b: Word): (n: nat)
    ensures 2 <= n <= 4
  {
    if High(a) == 0 && High(b) == 0 then 2 else if High(a) == 0 || High(b) == 0 then 3 else 4
  }

  ghost predicate FastInv(m: Fast, log: Log) {
    && (Busy(m.current) ==> !m.clrHeld || m.current.NewMultiply?)
    && match m.current
       case Idle => log.Last? ==> !m.clrHeld && m.product == log.a * log.b && log.spent == FastCycles(log.a, log.b)
       case NewMultiply => m.product == 0
       case A0B0 => log.Last? && FlagsExact(m, log) && m.product == Sum0(log.a, log.b) && log.spent == 1
       case A1B0 =>
         log.Last? && FlagsExact(m, log) && m.product == Sum1(log.a, log.b) && log.spent == 2 && High(log.a) != 0
       case A0B1 =>
         && log.Last? && m.product == Sum2(log.a, log.b) && High(log.b) != 0
         && log.spent == if High(log.a) == 0 then 2 else 3
  }

  ghost predicate FlagsExact(m: Fast, log: Log)
    requires log.Last?
  {
    m.aMswIs0 == (High(log.a) == 0) && m.bMswIs0 == (High(log.b) == 0)
  }

  lemma {:induction false} FastFirst(m: Fast, log: Log, input: Input)
    requires FastInv(m, log) && m.current.NewMultiply?
    ensures FastInv(FastCycle(m, input.start, input.a, input.b), NextLog(log, m.current, input))
  {
    var flags := Settled(m, input.start, input.a, input.b);
    var out := FastOutputs(m.current, input.start, m.clrHeld, flags.0, flags.1);
    LongMultiplication(input.a, input.b);
    PartialExact(input.a, input.b);
    Adds(m.product, out, input.a, input.b, 0, Sum0(input.a, input.b));
  }

  lemma {:induction false} FastSecond(m: Fast, log: Log, input: Input)
    requires FastInv(m, log) && m.current.A0B0? && Stable(log, m.current, input)
    ensures FastInv(FastCycle(m, input.start, input.a, input.b), NextLog(log, m.current, input))
  {
    var flags := Settled(m, input.start, input.a, input.b);
    var out := FastOutputs(m.current, input.start, m.clrHeld, flags.0, flags.1);
    LongMultiplication(input.a, input.b);
    PartialExact(input.a, input.b);
    if flags.0 && flags.1 {
      assert Sum0(input.a, input.b) == input.a * input.b;
    } else if flags.0 {
      assert Sum0(input.a, input.b) == Sum1(input.a, input.b);
      Adds(m.product, out, input.a, input.b, Sum1(input.a, input.b), Sum2(input.a, input.b));
    } else {
      Adds(m.product, out, input.a, input.b, Sum0(input.a, input.b), Sum1(input.a, input.b));
    }
  }

  lemma {:induction false} FastThird(m: Fast, log: Log, input: Input)
    requires FastInv(m, log) && m.current.A1B0? && Stable(log, m.current, input)
    ensures FastInv(FastCycle(m, input.start, input.a, input.b), NextLog(log, m.current, input))
  {
    var flags := Settled(m, input.start, input.a, input.b);
    var out := FastOutputs(m.current, input.start, m.clrHeld, flags.0, flags.1);
    LongMultiplication(input.a, input.b);
    PartialExact(input.a, input.b);
    if flags.1 {
      assert Sum1(input.a, input.b) == input.a * input.b;
    } else {
      Adds(m.product, out, input.a, input.b, Sum1(input.a, input.b), Sum2(input.a, input.b));
    }
  }

  lemma {:induction false} FastFourth(m: Fast, log: Log, input: Input)
    requires FastInv(m, log) && m.current.A0B1? && Stable(log, m.current, input)
    ensures FastInv(FastCycle(m, input.start, input.a, input.b), NextLog(log, m.current, input))
  {
    var flags := Settled(m, input.start, input.a, input.b);
    var out := FastOutputs(m.current, input.start, m.clrHeld, flags.0, flags.1);
    LongMultiplication(input.a, input.b);
    PartialExact(input.a, input.b);
    Adds(m.product, out, input.a, input.b, Sum2(input.a, input.b), Sum3(input.a, input.b));
  }

  lemma {:induction false} FastStep(m: Fast, log: Log, input: Input)
    requires FastInv(m, log) && Stable(log, m.current, input)
    ensures FastInv(FastCycle(m, input.start, input.a, input.b), NextLog(log, m.current, input))
  {
    match m.current {
      case Idle =>
      case NewMultiply => FastFirst(m, log, input);
      case A0B0 => FastSecond(m, log, input);
      case A1B0 => FastThird(m, log, input);
      case A0B1 => FastFourth(m, log, input);
    }
  }

  lemma {:induction false} PlainRunKeeps(m: Plain, log: Log, inputs: seq<Input>, n: Plain, end: Log)
    requires PlainInv(m, log) && PlainRun(m, log, inputs, n, end)
    ensures PlainInv(n, end)
    decreases |inputs|
  {
    if inputs != [] {
      var i := inputs[0];
      PlainStep(m, log, i);
      PlainRunKeeps(PlainCycle(m, i.start, i.a, i.b), NextLog(log, m.current, i), inputs[1..], n, end);
    }
  }

  lemma {:induction false} FastRunKeeps(m: Fast, log: Log, inputs: seq<Input>, n: Fast, end: Log)
    requires FastInv(m, log) && FastRun(m, log, inputs, n, end)
    ensures FastInv(n, end)
    decreases |inputs|
  {
    if inputs != [] {
      var i := inputs[0];
      FastStep(m, log, i);
      FastRunKeeps(FastCycle(m, i.start, i.a, i.b), NextLog(log, m.current, i), inputs[1..], n, end);
    }
  }

  /** One multiplication of the plain machine: exactly four busy cycles after the start pulse, whatever happens to start. */
  lemma {:induction false} PlainOnce(m: Plain, i: Input, s1: bool, s2: bool, s3: bool, s4: bool, a: Word, b: Word)
    requires m.current.Idle? && i.start
    ensures var c1 := PlainCycle(m, i.start, i.a, i.b);
            var c2 := PlainCycle(c1, s1, a, b);
            var c3 := PlainCycle(c2, s2, a, b);
            var c4 := PlainCycle(c3, s3, a, b);
            var c5 := PlainCycle(c4, s4, a, b);
            && Busy(c1.current) && Busy(c2.current) && Busy(c3.current) && Busy(c4.current)
            && !Busy(c5.current) && c5.product == a * b
  {
    var c1 := PlainCycle(m, i.start, i.a, i.b);
    var c2 := PlainCycle(c1, s1, a, b);
    var c3 := PlainCycle(c2, s2, a, b);
    var c4 := PlainCycle(c3, s3, a, b);
    PlainStep(c1, Nothing, Input(s1, a, b));
    PlainStep(c2, Last(a, b, 1), Input(s2, a, b));
    PlainStep(c3, Last(a, b, 2), Input(s3, a, b));
    PlainStep(c4, Last(a, b, 3), Input(s4, a, b));
  }

  /** One multiplication of the fast machine: back to idle after the 2, 3 or 4 cycles that the upper halves ask for. */
  lemma {:induction false} FastOnce(m: Fast, i: Input, s1: bool, s2: bool, s3: bool, s4: bool, a: Word, b: Word)
    requires m.current.Idle? && i.start
    ensures var c1 := FastCycle(m, i.start, i.a, i.b);
            var c2 := FastCycle(c1, s1, a, b);
            var c3 := FastCycle(c2, s2, a, b);
            var c4 := FastCycle(c3, s3, a, b);
            var c5 := FastCycle(c4, s4, a, b);
            var n := FastCycles(a, b);
            && Busy(c1.current) && Busy(c2.current)
            && (if n == 2 then !Busy(c3.current) && c3.product == a * b
                else Busy(c3.current) &&
                     if n == 3 then !Busy(c4.current) && c4.product == a * b
                     else Busy(c4.current) && !Busy(c5.current) && c5.product == a * b)
  {
    var c1 := FastCycle(m, i.start, i.a, i.b);
    var c2 := FastCycle(c1, s1, a, b);
    var c3 := FastCycle(c2, s2, a, b);
    var c4 := FastCycle(c3, s3, a, b);
    FastStep(c1, Nothing, Input(s1, a, b));
    FastStep(c2, Last(a, b, 1), Input(s2, a, b));
    if Busy(c3.current) {
      FastStep(c3, Last(a, b, 2), Input(s3, a, b));
      if Busy(c4.current) {
        FastStep(c4, Last(a, b, 3), Input(s4, a, b));
      }
    }
  }

  /** After any run from reset, an idle plain multiplier holds the exact product of its last operands, after 4 cycles. */
  lemma {:induction false} PlainExact(clr: bool, inputs: seq<Input>, n: Plain, end: Log)
    requires PlainRun(Plain(Idle, 0, clr), Nothing, inputs, n, end) && !Busy(n.current) && end.Last?
    ensures n.product == end.a * end.b && end.spent == 4
  {
    PlainRunKeeps(Plain(Idle, 0, clr), Nothing, inputs, n, end);
  }

  /** So does the fast one, after 2, 3 or 4 cycles, whatever its latches held at reset. */
  lemma {:induction false} FastExact(clr: bool, az: bool, bz: bool, inputs: seq<Input>, n: Fast, end: Log)
    requires FastRun(Fast(Idle, 0, clr, az, bz), Nothing, inputs, n, end) && !Busy(n.current) && end.Last?
    ensures n.product == end.a * end.b && end.spent == FastCycles(end.a, end.b) <= 4
  {
    FastRunKeeps(Fast(Idle, 0, clr, az, bz), Nothing, inputs, n, end);
  }

  /** An idle machine becomes busy exactly when it sees start. */
  lemma PlainStarts(m: Plain, input: Input)
    requires m.current.Idle?
    ensures Busy(PlainCycle(m, input.start, input.a, input.b).current) <==> input.start
  {
  }

  lemma {:induction false} PlainWaits(m: Plain, log: Log, inputs: seq<Input>, n: Plain, end: Log)
    requires m.current.Idle? && !m.clrHeld && PlainRun(m, log, inputs, n, end)
    requires forall i :: 0 <= i < |inputs| ==> !inputs[i].start
    ensures n.current.Idle? && n.product == m.product && end == log
    decreases |inputs|
  {
    if inputs != [] {
      var i := inputs[0];
      PlainWaits(PlainCycle(m, i.start, i.a, i.b), NextLog(log, m.current, i), inputs[1..], n, end);
    }
  }

  /** Without a start pulse an idle machine keeps the product of its last operands, however long it waits. */
  lemma {:induction false} PlainRests(clr: bool, inputs: seq<Input>, m: Plain, log: Log,
                                     idle: seq<Input>, n: Plain, end: Log)
    requires PlainRun(Plain(Idle, 0, clr), Nothing, inputs, m, log) && !Busy(m.current) && log.Last?
    requires PlainRun(m, log, idle, n, end) && forall i :: 0 <= i < |idle| ==> !idle[i].start
    ensures !Busy(n.current) && n.product == log.a * log.b && end == log
  {
    PlainRunKeeps(Plain(Idle, 0, clr), Nothing, inputs, m, log);
    PlainWaits(m, log, idle, n, end);
  }

  /** An idle machine becomes busy exactly when it sees start. */
  lemma FastStarts(m: Fast, input: Input)
    requires m.current.Idle?
    ensures Busy(FastCycle(m, input.start, input.a, input.b).current) <==> input.start
  {
  }

  lemma {:induction false} FastWaits(m: Fast, log: Log, inputs: seq<Input>, n: Fast, end: Log)
    requires m.current.Idle? && !m.clrHeld && FastRun(m, log, inputs, n, end)
    requires forall i :: 0 <= i < |inputs| ==> !inputs[i].start
    ensures n.current.Idle? && n.product == m.product && end == log
    decreases |inputs|
  {
    if inputs != [] {
      var i := inputs[0];
      FastWaits(FastCycle(m, i.start, i.a, i.b), NextLog(log, m.current, i), inputs[1..], n, end);
    }
  }

  /** Without a start pulse an idle machine keeps the product of its last operands, however long it waits. */
  lemma {:induction false} FastRests(clr: bool, az: bool, bz: bool, inputs: seq<Input>, m: Fast, log: Log,
                                     idle: seq<Input>, n: Fast, end: Log)
    requires FastRun(Fast(Idle, 0, clr, az, bz), Nothing, inputs, m, log) && !Busy(m.current) && log.Last?
    requires FastRun(m, log, idle, n, end) && forall i :: 0 <= i < |idle| ==> !idle[i].start
    ensures !Busy(n.current) && n.product == log.a * log.b && end == log
  {
    FastRunKeeps(Fast(Idle, 0, clr, az, bz), Nothing, inputs, m, log);
    FastWaits(m, log, idle, n, end);
  }

  /** The registers of the plain multiplier. */
  class PlainMultiplier {
    var current: Fsm
    var product: int
    var clrHeld: bool
    ghost var log: Log

    function State(): Plain
      reads this
    {
      Plain(current, product, clrHeld)
    }

    /** Reset leaves the latch as it was. */
    constructor (clr: bool)
      ensures State() == Plain(Idle, 0, clr) && log == Nothing && PlainInv(State(), log)
    {
      current, product, clrHeld, log := Idle, 0, clr, Nothing;
    }

    /** One clock cycle: when the machine is not busy, its product is exact. */
    method Clock(start: bool, a: Word, b: Word) returns (busy: bool)
      requires PlainInv(State(), log) && Stable(log, current, Input(start, a, b))
      modifies this
      ensures State() == PlainCycle(old(State()), start, a, b) && busy == Busy(old(current))
      ensures PlainInv(State(), log) && log == NextLog(old(log), old(current), Input(start, a, b))
      ensures !Busy(current) && log.Last? ==> product == log.a * log.b
      ensures !Busy(old(current)) ==> (Busy(current) <==> start)
      ensures !Busy(old(current)) && !start && log.Last? ==> product == old(product) && log == old(log)
    {
      PlainStep(State(), log, Input(start, a, b));
      log := NextLog(log, current, Input(start, a, b));
      var out := PlainOutputs(current, start, clrHeld);
      current, product, clrHeld := out.next, NextProduct(product, out, a, b), out.clrProd;
      busy := out.busy;
    }
  }

  /** The registers and latches of the fast multiplier. */
  class FastMultiplier {
    var current: Fsm
    var product: int
    var clrHeld: bool
    var aMswIs0: bool
    var bMswIs0: bool
    ghost var log: Log

    function State(): Fast
      reads this
    {
      Fast(current, product, clrHeld, aMswIs0, bMswIs0)
    }

    constructor (clr: bool, az: bool, bz: bool)
      ensures State() == Fast(Idle, 0, clr, az, bz) && log == Nothing && FastInv(State(), log)
    {
      current, product, clrHeld, log := Idle, 0, clr, Nothing;
      aMswIs0, bMswIs0 := az, bz;
    }

    method Clock(start: bool, a: Word, b: Word) returns (busy: bool)
      requires FastInv(State(), log) && Stable(log, current, Input(start, a, b))
      modifies this
      ensures State() == FastCycle(old(State()), start, a, b) && busy == Busy(old(current))
      ensures FastInv(State(), log) && log == NextLog(old(log), old(current), Input(start, a, b))
      ensures !Busy(current) && log.Last? ==> product == log.a * log.b
      ensures !Busy(old(current)) ==> (Busy(current) <==> start)
      ensures !Busy(old(current)) && !start && log.Last? ==> product == old(product) && log == old(log)
    {
      FastStep(State(), log, Input(start, a, b));
      log := NextLog(log, current, Input(start, a, b));
      var flags := Settled(State(), start, a, b);
      aMswIs0, bMswIs0 := flags.0, flags.1;
      var out := FastOutputs(current, start, clrHeld, aMswIs0, bMswIs0);
      current, product, clrHeld := out.next, NextProduct(product, out, a, b), out.clrProd;
      busy := out.busy;
    }
  }
}
