/** The core itself, register by register, and what it has retired since reset. */
module RiscVCore {
  import opened RiscV
  import opened Isa
  import opened RiscVLaws

  /** `k` cycles after the fetch at `f`, and no fetch since. */
  ghost predicate UnderWay(imem: Store, f: Machine, m: Machine, k: nat) {
    f.current == FETCH && m == Cycles(f, imem, k) && forall i :: 0 < i <= k ==> Cycles(f, imem, i).current != FETCH
  }

  lemma {:induction false} Onwards(imem: Store, f: Machine, m: Machine, k: nat)
    requires m == Cycles(f, imem, k)
    ensures Cycle(m, imem) == Cycles(f, imem, k + 1)
  {
    hide Cycle;
    CyclesAdd(f, imem, k, 1, m);
    ThreeTimes(Clocked(imem), m);
  }

  /** The last of `n + 1` instructions. */
  lemma {:induction false} StepsLast(s: Arch, imem: Store, n: nat)
    requires Supported(s, imem, n + 1)
    ensures Supported(s, imem, n) && !At(Steps(s, imem, n), imem).Unsupported?
    ensures Steps(s, imem, n + 1) == Step(Steps(s, imem, n), imem)
    ensures TotalCycles(s, imem, n + 1) == TotalCycles(s, imem, n) + CycleCount(At(Steps(s, imem, n), imem))
    decreases n
  {
    hide Step, At, CycleCount;
    if n == 0 {
      assert Steps(s, imem, 1) == Steps(Step(s, imem), imem, 0);
      assert TotalCycles(s, imem, 1) == CycleCount(At(s, imem)) + TotalCycles(Step(s, imem), imem, 0);
    } else {
      StepsLast(Step(s, imem), imem, n - 1);
    }
  }

  /** The first fetch after one is the end of the instruction that was fetched. */
  lemma {:induction false} NextFetch(start: Arch, imem: Store, f: Machine, k: nat, n: nat)
    requires f.current == FETCH && Supported(start, imem, n + 1) && View(f) == Steps(start, imem, n)
    requires k > 0 && Cycles(f, imem, k).current == FETCH
    requires forall i :: 0 < i < k ==> Cycles(f, imem, i).current != FETCH
    ensures View(Cycles(f, imem, k)) == Steps(start, imem, n + 1)
    ensures TotalCycles(start, imem, n + 1) == TotalCycles(start, imem, n) + k
  {
    hide Step, Cycle, Supported, Steps, TotalCycles;
    StepsLast(start, imem, n);
    var w := Get(imem, WordAddress(f.pc));
    StepSimulates(f, imem, w);
    assert At(View(f), imem) == Decode(w);
    var c := CycleCount(Decode(w));
    assert k == c;
  }

  /** Back at a fetch: one more instruction has been finished. */
  lemma {:induction false} Retired(start: Arch, imem: Store, f: Machine, k: nat, n: nat, elapsed: nat)
    requires f.current == FETCH && k > 0 && Cycles(f, imem, k).current == FETCH
    requires forall i :: 0 < i < k ==> Cycles(f, imem, i).current != FETCH
    requires Supported(start, imem, n) ==> View(f) == Steps(start, imem, n) && elapsed == TotalCycles(start, imem, n) + k
    ensures Supported(start, imem, n + 1) ==>
              View(Cycles(f, imem, k)) == Steps(start, imem, n + 1) && elapsed == TotalCycles(start, imem, n + 1)
  {
    hide Cycle, Cycles, Supported, Steps, TotalCycles;
    if Supported(start, imem, n + 1) {
      StepsLast(start, imem, n);
      NextFetch(start, imem, f, k, n);
    }
  }

  /**
   * The registers of the core, its register file and its data memory, over a program memory that does not change.
   * `retired` instructions have been finished in `elapsed` cycles; the last fetch was `since` cycles ago.
   */
  class Core {
    const imem: Store
    var current: ControlState
    var pc: Word
    var pcc: Word
    var ir: Word
    var a: Word
    var b: Word
    var aluout: Word
    var mdr: Word
    var rf: Store
    var dmem: Store

    ghost const start: Arch
    ghost var fetched: Machine
    ghost var since: nat
    ghost var retired: nat
    ghost var elapsed: nat

    function State(): Machine
      reads this
    {
      Machine(current, pc, pcc, ir, a, b, aluout, mdr, rf, dmem)
    }

    /** While the program has only supported instructions, the last fetch saw the state after `retired` of them. */
    ghost predicate Valid()
      reads this
    {
      && UnderWay(imem, fetched, State(), since)
      && (Supported(start, imem, retired) ==>
            View(fetched) == Steps(start, imem, retired) && elapsed == TotalCycles(start, imem, retired) + since)
    }

    /** After reset; register file and memory keep what they held. */
    constructor (imem: Store, rf: Store, dmem: Store)
      ensures Valid() && State() == Machine(FETCH, 0, 0, 0, 0, 0, 0, 0, rf, dmem)
      ensures this.imem == imem && start == Arch(0, rf, dmem) && retired == 0 && elapsed == 0
    {
      this.imem := imem;
      current, pc, pcc, ir, a, b, aluout, mdr := FETCH, 0, 0, 0, 0, 0, 0, 0;
      this.rf, this.dmem := rf, dmem;
      start := Arch(0, rf, dmem);
      fetched := Machine(FETCH, 0, 0, 0, 0, 0, 0, 0, rf, dmem);
      since, retired, elapsed := 0, 0, 0;
    }

    /** One clock edge: every register samples values from before the edge. */
    method Clock()
      requires Valid()
      modifies this
      ensures Valid() && State() == Cycle(old(State()), imem) && elapsed == old(elapsed) + 1
      ensures retired == if current == FETCH then old(retired) + 1 else old(retired)
      ensures current == FETCH && Supported(start, imem, retired) ==>
                View(State()) == Steps(start, imem, retired) && elapsed == TotalCycles(start, imem, retired)
    {
      hide Cycle, Supported, Steps, TotalCycles, View;
      ghost var m := State();
      Sample();
      Onwards(imem, fetched, m, since);
      since, elapsed := since + 1, elapsed + 1;
      if current == FETCH {
        Retired(start, imem, fetched, since, retired, elapsed);
        fetched, since, retired := State(), 0, retired + 1;
      }
    }

    /** The registers, block by block; every block reads the values from before the edge. */
    method Sample()
      modifies this`current, this`pc, this`pcc, this`ir, this`a, this`b, this`aluout, this`mdr, this`rf, this`dmem
      ensures State() == Cycle(old(State()), imem)
    {
      hide ControlOf, NextControl, AluOf, ReadRegister, Get, WordAddress, Rd, Rs1, Rs2, Wrap;
      var m := State();
      var c := ControlOf(m);
      current := NextControl(m.current, m.ir);
      ClockFetch(m, c);
      ClockOperands(m, c);
      ClockResults(m, c);
    }

    method ClockFetch(m: Machine, c: Controls)
      requires pc == m.pc && pcc == m.pcc && ir == m.ir
      modifies this`pc, this`pcc, this`ir
      ensures pc == if c.pcWrite then (if c.pcSource == PC_ALU then m.aluout else Wrap(m.pc + 4)) else m.pc
      ensures pcc == if c.pccEn then m.pc else m.pcc
      ensures ir == if c.irWrite then Get(imem, WordAddress(m.pc)) else m.ir
    {
      if c.pcWrite {
        pc := if c.pcSource == PC_ALU then m.aluout else Wrap(pc + 4);
      }
      if c.pccEn {
        pcc := m.pc;
      }
      if c.irWrite {
        ir := Get(imem, WordAddress(m.pc));
      }
    }

    method ClockOperands(m: Machine, c: Controls)
      modifies this`a, this`b, this`aluout
      ensures a == ReadRegister(m.rf, Rs1(m.ir)) && aluout == AluOf(m, c)
      ensures b == if c.subB then m.aluout else ReadRegister(m.rf, Rs2(m.ir))
    {
      a := ReadRegister(m.rf, Rs1(m.ir));
      if c.subB {
        b := m.aluout;
      } else {
        b := ReadRegister(m.rf, Rs2(m.ir));
      }
      aluout := AluOf(m, c);
    }

    method ClockResults(m: Machine, c: Controls)
      requires rf == m.rf && mdr == m.mdr && dmem == m.dmem
      modifies this`rf, this`mdr, this`dmem
      ensures var datad := match c.wbSel case WB_MDR => m.mdr case WB_ALUOUT => m.aluout case WB_PC => m.pc;
              rf == if c.regWen && Rd(m.ir) != 0 then m.rf[Rd(m.ir) := datad] else m.rf
      ensures mdr == if c.mdrWrite then Get(m.dmem, WordAddress(m.aluout)) else m.mdr
      ensures dmem == if c.memRw then m.dmem[WordAddress(m.aluout) := m.b] else m.dmem
    {
      var datad := match c.wbSel case WB_MDR => m.mdr case WB_ALUOUT => m.aluout case WB_PC => m.pc;
      if c.regWen && Rd(m.ir) != 0 {
        rf := rf[Rd(m.ir) := datad];
      }
      if c.mdrWrite {
        mdr := Get(dmem, WordAddress(m.aluout));
      }
      if c.memRw {
        dmem := dmem[WordAddress(m.aluout) := m.b];
      }
    }
  }
}
