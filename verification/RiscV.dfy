/**
 * A multicycle RISC-V core: a control state machine and a register datapath. Combinational logic is pure; one call
 * of `Cycle` is one clock edge. `Isa` is a one-step model of the instruction set, written from the manual.
 */
module RiscV {
  const MODULUS := 0x1_0000_0000

  /** 32-bit registers as numbers; arithmetic wraps around. */
  type Word = w: int | 0 <= w < MODULUS

  function Wrap(x: int): Word {
    x % MODULUS
  }

  /** Register files and memories; what has not been written is 0, initial contents are arbitrary. */
  type Store = map<int, Word>

  function Get(m: Store, i: int): Word {
    if i in m then m[i] else 0
  }

  /** Both memories are addressed by words: bits 11 to 2 of the address. */
  function WordAddress(addr: Word): int {
    (addr / 4) % 1024
  }

  // ----- fields of an instruction: division drops the bits below a field, the remainder those above -----

  function Opcode(w: Word): int { w % 0x80 }
  function Rd(w: Word): int { (w / 0x80) % 32 }
  function Funct3(w: Word): int { (w / 0x1000) % 8 }
  function Rs1(w: Word): int { (w / 0x8000) % 32 }
  function Rs2(w: Word): int { (w / 0x10_0000) % 32 }
  function Bit30(w: Word): int { (w / 0x4000_0000) % 2 }
  function Sign(w: Word): int { w / 0x8000_0000 }

  // ----- control -----

  datatype ControlState =
    FETCH | DECODE | LSW_ADDR | LW_MEM | LW_WB | SW_MEM | RTYPE_ALU | RTYPE_WB | BEQ_EXEC | JAL_EXEC | SW2_CALC | SW2_MEM

  datatype Kind = LW | SW | SW2 | ALU | BEQ | JAL | NONE

  /** The match on opcode and funct3. */
  function KindOf(ir: Word): Kind {
    if Opcode(ir) == 0x03 && Funct3(ir) == 2 then LW
    else if Opcode(ir) == 0x23 && Funct3(ir) == 2 then SW
    else if Opcode(ir) == 0x23 && Funct3(ir) == 3 then SW2
    else if Opcode(ir) == 0x33 then ALU
    else if Opcode(ir) == 0x63 && Funct3(ir) == 0 then BEQ
    else if Opcode(ir) == 0x6F then JAL
    else NONE
  }

  function NextControl(current: ControlState, ir: Word): ControlState {
    match current
    case FETCH => DECODE
    case DECODE =>
      (match KindOf(ir)
       case LW => LSW_ADDR
       case SW => LSW_ADDR
       case SW2 => LSW_ADDR
       case ALU => RTYPE_ALU
       case BEQ => BEQ_EXEC
       case JAL => JAL_EXEC
       case NONE => FETCH)
    case LSW_ADDR =>
      (match KindOf(ir)
       case LW => LW_MEM
       case SW2 => SW2_CALC
       case _ => SW_MEM)
    case LW_MEM => LW_WB
    case SW2_CALC => SW2_MEM
    case RTYPE_ALU => RTYPE_WB
    case _ => FETCH
  }

  datatype PcSource = PC_INC | PC_ALU
  datatype ImmSel = IMM_B | IMM_J | IMM_S | IMM_L
  datatype ASel = ALUA_PCC | ALUA_REG | ALUA_CONST
  datatype BSel = ALUB_IMM | ALUB_REG
  datatype WbSel = WB_MDR | WB_ALUOUT | WB_PC

  datatype Controls = Controls(pcSource: PcSource, pcWrite: bool, pccEn: bool, irWrite: bool, wbSel: WbSel, regWen: bool,
                               immSel: ImmSel, aSel: ASel, subB: bool, bSel: BSel, aluSel: int, mdrWrite: bool,
                               memRw: bool)

  const ALU_ADD := 0
  const ALU_SUB := 1

  const DEFAULTS := Controls(PC_INC, false, false, false, WB_PC, false, IMM_B, ALUA_REG, false, ALUB_REG, ALU_ADD, false, false)

  function Control(current: ControlState, ir: Word, zero: bool): Controls {
    match current
    case FETCH => DEFAULTS.(pccEn := true, pcWrite := true, irWrite := true)
    case DECODE => DEFAULTS.(immSel := IMM_B, aSel := ALUA_PCC, bSel := ALUB_IMM)
    case LSW_ADDR =>
      DEFAULTS.(immSel := if KindOf(ir) == LW then IMM_L else IMM_S,
                aSel := if KindOf(ir) == SW2 then ALUA_CONST else ALUA_REG,
                bSel := if KindOf(ir) == SW2 then ALUB_REG else ALUB_IMM,
                aluSel := if KindOf(ir) == SW2 then ALU_SUB else ALU_ADD)
    case LW_MEM => DEFAULTS.(mdrWrite := true)
    case LW_WB => DEFAULTS.(wbSel := WB_MDR, regWen := true)
    case SW_MEM => DEFAULTS.(memRw := true)
    case SW2_CALC => DEFAULTS.(immSel := IMM_S, bSel := ALUB_IMM, subB := true)
    case SW2_MEM => DEFAULTS.(memRw := true)
    case RTYPE_ALU => DEFAULTS.(aluSel := Funct3(ir) * 2 + Bit30(ir))
    case RTYPE_WB => DEFAULTS.(wbSel := WB_ALUOUT, regWen := true)
    case BEQ_EXEC => DEFAULTS.(aluSel := ALU_SUB, pcSource := PC_ALU, pcWrite := zero)
    case JAL_EXEC =>
      DEFAULTS.(immSel := IMM_J, aSel := ALUA_PCC, bSel := ALUB_IMM, pcSource := PC_ALU, pcWrite := true,
                regWen := true, wbSel := WB_PC)
  }

  // ----- datapath -----

  /** The bits of the instruction that each format gathers, below copies of the sign bit. */
  function Immediate(immSel: ImmSel, ir: Word): Word {
    match immSel
    case IMM_J =>
      Sign(ir) * 0xFFF0_0000 + ((ir / 0x1000) % 0x100) * 0x1000 + ((ir / 0x10_0000) % 2) * 0x800 + ((ir / 0x20_0000) % 0x400) * 2
    case IMM_B =>
      Sign(ir) * 0xFFFF_F000 + ((ir / 0x80) % 2) * 0x800 + ((ir / 0x200_0000) % 0x40) * 0x20 + ((ir / 0x100) % 0x10) * 2
    case IMM_S => Sign(ir) * 0xFFFF_F800 + ((ir / 0x200_0000) % 0x40) * 0x20 + (ir / 0x80) % 0x20
    case IMM_L => Sign(ir) * 0xFFFF_F800 + (ir / 0x10_0000) % 0x800
  }

  /** The value of a word as a signed integer. */
  function Signed(x: Word): int {
    if x < 0x8000_0000 then x else x - MODULUS
  }

  /** Bitwise operations, bit by bit from the lowest. */
  function Xor(x: nat, y: nat): nat {
    if x == 0 && y == 0 then 0 else 2 * Xor(x / 2, y / 2) + (x % 2 + y % 2) % 2
  }

  function Or(x: nat, y: nat): nat {
    if x == 0 && y == 0 then 0 else 2 * Or(x / 2, y / 2) + if x % 2 + y % 2 > 0 then 1 else 0
  }

  function And(x: nat, y: nat): nat {
    if x == 0 && y == 0 then 0 else 2 * And(x / 2, y / 2) + (x % 2) * (y % 2)
  }

  function Pow2(n: nat): nat { if n == 0 then 1 else 2 * Pow2(n - 1) }

  /** Shifts take the whole register as their amount. */
  function ShiftLeft(x: Word, y: Word): Word { if y < 32 then Wrap(x * Pow2(y)) else 0 }
  function ShiftRight(x: Word, y: Word): Word
  {
    if y < 32 && Pow2(y) > 0 then Wrap(x / Pow2(y)) else 0
  }

  function AluResult(aluSel: int, x: Word, y: Word): Word {
    match aluSel
    case 1 => Wrap(x - y)
    case 2 => ShiftLeft(x, y)
    case 4 => if Signed(x) < Signed(y) then 1 else 0
    case 6 => if x < y then 1 else 0
    case 8 => Wrap(Xor(x, y))
    case 10 => ShiftRight(x, y)
    case 11 => ShiftRight(x, y)
    case 12 => Wrap(Or(x, y))
    case 14 => Wrap(And(x, y))
    case _ => Wrap(x + y)
  }

  function ReadRegister(rf: Store, i: int): Word {
    if i == 0 then 0 else Get(rf, i)
  }

  datatype Machine = Machine(current: ControlState, pc: Word, pcc: Word, ir: Word, a: Word, b: Word, aluout: Word,
                             mdr: Word, rf: Store, dmem: Store)

  function AluOf(m: Machine, c: Controls): Word {
    var x := match c.aSel case ALUA_REG => m.a case ALUA_CONST => 0 case ALUA_PCC => m.pcc;
    var y := if c.bSel == ALUB_REG then m.b else Immediate(c.immSel, m.ir);
    AluResult(c.aluSel, x, y)
  }

  /** The controls of this cycle; only a branch depends on the result it compares. */
  function ControlOf(m: Machine): Controls {
    var zero := AluOf(m, Control(m.current, m.ir, false)) == 0;
    Control(m.current, m.ir, zero)
  }

  /** One clock edge: every register samples values from before the edge. */
  function Cycle(m: Machine, imem: Store): Machine {
    var c := ControlOf(m);
    var datad := match c.wbSel case WB_MDR => m.mdr case WB_ALUOUT => m.aluout case WB_PC => m.pc;
    Machine(
      NextControl(m.current, m.ir),
      if c.pcWrite then (if c.pcSource == PC_ALU then m.aluout else Wrap(m.pc + 4)) else m.pc,
      if c.pccEn then m.pc else m.pcc,
      if c.irWrite then Get(imem, WordAddress(m.pc)) else m.ir,
      ReadRegister(m.rf, Rs1(m.ir)),
      if c.subB then m.aluout else ReadRegister(m.rf, Rs2(m.ir)),
      AluOf(m, c),
      if c.mdrWrite then Get(m.dmem, WordAddress(m.aluout)) else m.mdr,
      if c.regWen && Rd(m.ir) != 0 then m.rf[Rd(m.ir) := datad] else m.rf,
      if c.memRw then m.dmem[WordAddress(m.aluout) := m.b] else m.dmem)
  }

  function Clocked(imem: Store): Machine -> Machine {
    m => Cycle(m, imem)
  }

  function Iterate<T>(f: T -> T, x: T, n: nat): T
    decreases n
  {
    if n == 0 then x else Iterate(f, f(x), n - 1)
  }

  function Cycles(m: Machine, imem: Store, n: nat): Machine {
    Iterate(Clocked(imem), m, n)
  }
}

/** The instruction set, one instruction a step: sections 2.3 to 2.6 of the RISC-V Unprivileged ISA manual, and SW2. */
module Isa {
  import opened RiscV

  datatype Op = ADD | SUB | SLT | SLTU | XOR | OR | AND

  datatype Instr =
    | Load(rd: int, rs1: int, imm: int)
    | StoreWord(rs1: int, rs2: int, imm: int)
    | StoreNegated(rs1: int, rs2: int, imm: int)
    | Register(op: Op, rd: int, rs1: int, rs2: int)
    | Branch(rs1: int, rs2: int, imm: int)
    | Unsupported

  /** The I, S and B immediates as signed integers: 12 bits, or 13 with a zero at the end. */
  function ImmI(w: Word): int {
    var x := w / 0x10_0000;
    if x < 0x800 then x else x - 0x1000
  }

  function ImmS(w: Word): int {
    var x := (w / 0x200_0000) * 0x20 + Rd(w);
    if x < 0x800 then x else x - 0x1000
  }

  function ImmB(w: Word): int {
    var x := Sign(w) * 0x1000 + (Rd(w) % 2) * 0x800 + ((w / 0x200_0000) % 0x40) * 0x20 + (Rd(w) / 2) * 2;
    if x < 0x1000 then x else x - 0x2000
  }

  function Funct7(w: Word): int { w / 0x200_0000 }

  function OpOf(w: Word): (op: Option<Op>) {
    match (Funct7(w), Funct3(w))
    case (0, 0) => Some(ADD)
    case (0x20, 0) => Some(SUB)
    case (0, 2) => Some(SLT)
    case (0, 3) => Some(SLTU)
    case (0, 4) => Some(XOR)
    case (0, 6) => Some(OR)
    case (0, 7) => Some(AND)
    case _ => None
  }

  datatype Option<T> = None | Some(value: T)

  function Decode(w: Word): Instr {
    match (Opcode(w), Funct3(w))
    case (0x03, 2) => Load(Rd(w), Rs1(w), ImmI(w))
    case (0x23, 2) => StoreWord(Rs1(w), Rs2(w), ImmS(w))
    case (0x23, 3) => StoreNegated(Rs1(w), Rs2(w), ImmS(w))
    case (0x63, 0) => Branch(Rs1(w), Rs2(w), ImmB(w))
    case (0x33, _) => (match OpOf(w) case Some(op) => Register(op, Rd(w), Rs1(w), Rs2(w)) case None => Unsupported)
    case _ => Unsupported
  }

  /** What a programmer sees. */
  datatype Arch = Arch(pc: Word, rf: Store, dmem: Store)

  function WriteRegister(rf: Store, i: int, v: Word): Store {
    if i == 0 then rf else rf[i := v]
  }

  function Compute(op: Op, x: Word, y: Word): Word {
    match op
    case ADD => Wrap(x + y)
    case SUB => Wrap(x - y)
    case SLT => if Signed(x) < Signed(y) then 1 else 0
    case SLTU => if x < y then 1 else 0
    case XOR => Wrap(Xor(x, y))
    case OR => Wrap(Or(x, y))
    case AND => Wrap(And(x, y))
  }

  function Step(s: Arch, imem: Store): Arch {
    match Decode(Get(imem, WordAddress(s.pc)))
    case Load(rd, rs1, imm) =>
      var v := Get(s.dmem, WordAddress(Wrap(ReadRegister(s.rf, rs1) + imm)));
      Arch(Wrap(s.pc + 4), WriteRegister(s.rf, rd, v), s.dmem)
    case StoreWord(rs1, rs2, imm) =>
      var address := WordAddress(Wrap(ReadRegister(s.rf, rs1) + imm));
      Arch(Wrap(s.pc + 4), s.rf, s.dmem[address := ReadRegister(s.rf, rs2)])
    case StoreNegated(rs1, rs2, imm) =>
      var address := WordAddress(Wrap(ReadRegister(s.rf, rs1) + imm));
      Arch(Wrap(s.pc + 4), s.rf, s.dmem[address := Wrap(0 - ReadRegister(s.rf, rs2))])
    case Register(op, rd, rs1, rs2) =>
      var v := Compute(op, ReadRegister(s.rf, rs1), ReadRegister(s.rf, rs2));
      Arch(Wrap(s.pc + 4), WriteRegister(s.rf, rd, v), s.dmem)
    case Branch(rs1, rs2, imm) =>
      var taken := ReadRegister(s.rf, rs1) == ReadRegister(s.rf, rs2);
      Arch(Wrap(s.pc + if taken then imm else 4), s.rf, s.dmem)
    case Unsupported => s
  }

  function CycleCount(i: Instr): nat {
    match i
    case Load(_, _, _) => 5
    case StoreWord(_, _, _) => 4
    case StoreNegated(_, _, _) => 5
    case Register(_, _, _, _) => 4
    case Branch(_, _, _) => 3
    case Unsupported => 2
  }
}

/** The core simulates the instruction set. */
module RiscVLaws {
  import opened RiscV
  import opened Isa

  function View(m: Machine): Arch {
    Arch(m.pc, m.rf, m.dmem)
  }

  // ----- decoding -----

  /** The gathered bits are the immediates of the manual, modulo the word size. */
  lemma {:induction false} ImmIAgrees(w: Word)
    ensures Immediate(IMM_L, w) == Wrap(ImmI(w))
  {
  }

  lemma {:induction false} ImmSAgrees(w: Word)
    ensures Immediate(IMM_S, w) == Wrap(ImmS(w))
  {
  }

  /** The field of the destination register, split as the B format splits it. */
  lemma {:induction false} RdSplit(w: Word)
    ensures Rd(w) % 2 == (w / 0x80) % 2 && Rd(w) / 2 == (w / 0x100) % 0x10
  {
    var d := w / 0x80;
    assert w / 0x100 == d / 2;
  }

  /** The B immediate below its sign bit. */
  function Offset(b11: int, b10: int, b4: int): int {
    b11 * 0x800 + b10 * 0x20 + b4 * 2
  }

  lemma {:induction false} SignExtended(sign: int, low: int)
    requires 0 <= sign < 2 && 0 <= low < 0x1000
    ensures sign * 0xFFFF_F000 + low == Wrap(if sign * 0x1000 + low < 0x1000 then low else low - 0x1000)
  {
    if sign == 0 {
      assert Wrap(low) == low;
    } else {
      assert Wrap(low - 0x1000) == low - 0x1000 + MODULUS;
    }
  }

  lemma {:induction false} FieldBounds(w: Word)
    ensures 0 <= Sign(w) < 2
    ensures 0 <= Offset((w / 0x80) % 2, (w / 0x200_0000) % 0x40, (w / 0x100) % 0x10) < 0x1000
  {
  }

  lemma {:induction false} ImmBAgrees(w: Word)
    ensures Immediate(IMM_B, w) == Wrap(ImmB(w))
  {
    var low := Offset((w / 0x80) % 2, (w / 0x200_0000) % 0x40, (w / 0x100) % 0x10);
    RdSplit(w);
    FieldBounds(w);
    SignExtended(Sign(w), low);
    assert Immediate(IMM_B, w) == Sign(w) * 0xFFFF_F000 + low by { hide Sign; }
    assert ImmB(w) == if Sign(w) * 0x1000 + low < 0x1000 then low else low - 0x1000 by { hide Sign, Rd; }
  }

  lemma {:induction false} WrapSum(x: Word, i: int)
    ensures Wrap(x + Wrap(i)) == Wrap(x + i)
  {
  }

  lemma {:induction false} KindsAgree(w: Word)
    ensures match Decode(w)
            case Load(_, _, _) => KindOf(w) == LW
            case StoreWord(_, _, _) => KindOf(w) == SW
            case StoreNegated(_, _, _) => KindOf(w) == SW2
            case Register(_, _, _, _) => KindOf(w) == ALU
            case Branch(_, _, _) => KindOf(w) == BEQ
            case Unsupported => true
  {
  }

  /** Funct3 and one bit of funct7 select the operation. */
  lemma {:induction false} AluAgrees(w: Word, x: Word, y: Word)
    requires Decode(w).Register?
    ensures AluResult(Funct3(w) * 2 + Bit30(w), x, y) == Compute(Decode(w).op, x, y)
  {
  }

  // ----- one instruction -----

  ghost predicate AtFetch(m: Machine, imem: Store, w: Word) {
    m.current == FETCH && w == Get(imem, WordAddress(m.pc))
  }

  /** The machine once the instruction and its registers have been read, and the branch target computed. */
  function AfterDecode(m: Machine, w: Word): Machine {
    Machine(NextControl(DECODE, w), Wrap(m.pc + 4), m.pc, w, ReadRegister(m.rf, Rs1(w)), ReadRegister(m.rf, Rs2(w)),
            Wrap(m.pc + Immediate(IMM_B, w)), m.mdr, m.rf, m.dmem)
  }

  lemma {:induction false} IterateAdd<T>(f: T -> T, x: T, j: nat, k: nat)
    ensures Iterate(f, x, j + k) == Iterate(f, Iterate(f, x, j), k)
    decreases j
  {
    if j > 0 {
      IterateAdd(f, f(x), j - 1, k);
    }
  }

  lemma {:induction false} ThreeTimes<T>(f: T -> T, x: T)
    ensures Iterate(f, x, 1) == f(x) && Iterate(f, x, 2) == f(f(x)) && Iterate(f, x, 3) == f(f(f(x)))
  {
    IterateAdd(f, x, 1, 1);
    IterateAdd(f, x, 2, 1);
  }

  lemma {:induction false} FetchAndDecode(m: Machine, imem: Store, w: Word)
    requires AtFetch(m, imem, w)
    ensures Cycles(m, imem, 1).current == DECODE && Cycles(m, imem, 2) == AfterDecode(m, w)
  {
    ThreeTimes(Clocked(imem), m);
  }

  /** The machine is back at a fetch after exactly `n` cycles, not earlier, in the given state. */
  ghost predicate Finishes(m: Machine, imem: Store, n: nat, s: Arch) {
    && Cycles(m, imem, n).current == FETCH && View(Cycles(m, imem, n)) == s
    && forall k :: 0 <= k < n ==> Cycles(m, imem, k).current != FETCH
  }

  /** What the datapath does after decoding, instruction by instruction: address, memory, write-back. */
  lemma {:induction false} LoadPath(e: Machine, imem: Store, s: Arch)
    requires e.current == LSW_ADDR && KindOf(e.ir) == LW
    requires s == Arch(e.pc, WriteRegister(e.rf, Rd(e.ir), Get(e.dmem, WordAddress(Wrap(e.a + Immediate(IMM_L, e.ir))))), e.dmem)
    ensures Finishes(e, imem, 3, s)
  {
    var e1 := Cycle(e, imem);
    var e2 := Cycle(e1, imem);
    var e3 := Cycle(e2, imem);
    assert e1.aluout == Wrap(e.a + Immediate(IMM_L, e.ir)) && e2.mdr == Get(e.dmem, WordAddress(e1.aluout));
    ThreeTimes(Clocked(imem), e);
  }

  /** Address, memory. */
  lemma {:induction false} StorePath(e: Machine, imem: Store, s: Arch)
    requires e.current == LSW_ADDR && KindOf(e.ir) == SW
    requires s == Arch(e.pc, e.rf, e.dmem[WordAddress(Wrap(e.a + Immediate(IMM_S, e.ir))) := ReadRegister(e.rf, Rs2(e.ir))])
    ensures Finishes(e, imem, 2, s)
  {
    hide Immediate, WordAddress, KindOf, Get;
    var e1 := Cycle(e, imem);
    var e2 := Cycle(e1, imem);
    assert e1.aluout == Wrap(e.a + Immediate(IMM_S, e.ir));
    ThreeTimes(Clocked(imem), e);
  }

  /** Negation, address, memory: the negated register takes the place of the second operand. */
  lemma {:induction false} NegatedPath(e: Machine, imem: Store, s: Arch)
    requires e.current == LSW_ADDR && KindOf(e.ir) == SW2
    requires s == Arch(e.pc, e.rf, e.dmem[WordAddress(Wrap(ReadRegister(e.rf, Rs1(e.ir)) + Immediate(IMM_S, e.ir))) := Wrap(0 - e.b)])
    ensures Finishes(e, imem, 3, s)
  {
    hide Immediate, WordAddress, KindOf, Get;
    var e1 := Cycle(e, imem);
    var e2 := Cycle(e1, imem);
    var e3 := Cycle(e2, imem);
    assert e1.aluout == Wrap(0 - e.b) && e1.a == ReadRegister(e.rf, Rs1(e.ir));
    assert e2.aluout == Wrap(e1.a + Immediate(IMM_S, e.ir)) && e2.b == e1.aluout;
    ThreeTimes(Clocked(imem), e);
  }

  /** Operation, write-back. */
  lemma {:induction false} RegisterPath(e: Machine, imem: Store, s: Arch)
    requires e.current == RTYPE_ALU && KindOf(e.ir) == ALU
    requires s == Arch(e.pc, WriteRegister(e.rf, Rd(e.ir), AluResult(Funct3(e.ir) * 2 + Bit30(e.ir), e.a, e.b)), e.dmem)
    ensures Finishes(e, imem, 2, s)
  {
    var e1 := Cycle(e, imem);
    var e2 := Cycle(e1, imem);
    assert e1.aluout == AluResult(Funct3(e.ir) * 2 + Bit30(e.ir), e.a, e.b);
    ThreeTimes(Clocked(imem), e);
  }

  lemma {:induction false} Difference(x: Word, y: Word)
    ensures Wrap(x - y) == 0 <==> x == y
  {
  }

  /** Comparison; the target is already there. */
  lemma {:induction false} BranchPath(e: Machine, imem: Store, s: Arch)
    requires e.current == BEQ_EXEC && KindOf(e.ir) == BEQ
    requires s == Arch(if e.a == e.b then e.aluout else e.pc, e.rf, e.dmem)
    ensures Finishes(e, imem, 1, s)
  {
    var e1 := Cycle(e, imem);
    Difference(e.a, e.b);
    assert AluOf(e, Control(BEQ_EXEC, e.ir, false)) == Wrap(e.a - e.b);
    ThreeTimes(Clocked(imem), e);
  }

  // The step of the instruction set in the core's terms, and what decoding has left to do leads to it.

  lemma {:induction false} LoadIs(s: Arch, imem: Store, w: Word)
    requires w == Get(imem, WordAddress(s.pc)) && Decode(w).Load?
    ensures var x := ReadRegister(s.rf, Rs1(w));
            Step(s, imem) ==
              Arch(Wrap(s.pc + 4), WriteRegister(s.rf, Rd(w), Get(s.dmem, WordAddress(Wrap(x + Immediate(IMM_L, w))))), s.dmem)
  {
    ImmIAgrees(w);
    WrapSum(ReadRegister(s.rf, Rs1(w)), ImmI(w));
  }

  lemma {:induction false} LoadRest(m: Machine, imem: Store, w: Word)
    requires AtFetch(m, imem, w) && Decode(w).Load?
    ensures Finishes(AfterDecode(m, w), imem, 3, Step(View(m), imem))
  {
    LoadIs(View(m), imem, w);
    KindsAgree(w);
    LoadPath(AfterDecode(m, w), imem, Step(View(m), imem));
  }

  lemma {:induction false} StoreIs(s: Arch, imem: Store, w: Word)
    requires w == Get(imem, WordAddress(s.pc)) && Decode(w).StoreWord?
    ensures var x, y := ReadRegister(s.rf, Rs1(w)), ReadRegister(s.rf, Rs2(w));
            Step(s, imem) == Arch(Wrap(s.pc + 4), s.rf, s.dmem[WordAddress(Wrap(x + Immediate(IMM_S, w))) := y])
  {
    ImmSAgrees(w);
    WrapSum(ReadRegister(s.rf, Rs1(w)), ImmS(w));
  }

  lemma {:induction false} StoreRest(m: Machine, imem: Store, w: Word)
    requires AtFetch(m, imem, w) && Decode(w).StoreWord?
    ensures Finishes(AfterDecode(m, w), imem, 2, Step(View(m), imem))
  {
    StoreIs(View(m), imem, w);
    KindsAgree(w);
    StorePath(AfterDecode(m, w), imem, Step(View(m), imem));
  }

  lemma {:induction false} NegatedIs(s: Arch, imem: Store, w: Word)
    requires w == Get(imem, WordAddress(s.pc)) && Decode(w).StoreNegated?
    ensures var x, y := ReadRegister(s.rf, Rs1(w)), ReadRegister(s.rf, Rs2(w));
            Step(s, imem) ==
              Arch(Wrap(s.pc + 4), s.rf, s.dmem[WordAddress(Wrap(x + Immediate(IMM_S, w))) := Wrap(0 - y)])
  {
    ImmSAgrees(w);
    WrapSum(ReadRegister(s.rf, Rs1(w)), ImmS(w));
  }

  lemma {:induction false} NegatedRest(m: Machine, imem: Store, w: Word)
    requires AtFetch(m, imem, w) && Decode(w).StoreNegated?
    ensures Finishes(AfterDecode(m, w), imem, 3, Step(View(m), imem))
  {
    NegatedIs(View(m), imem, w);
    KindsAgree(w);
    NegatedPath(AfterDecode(m, w), imem, Step(View(m), imem));
  }

  lemma {:induction false} RegisterIs(s: Arch, imem: Store, w: Word)
    requires w == Get(imem, WordAddress(s.pc)) && Decode(w).Register?
    ensures var x, y := ReadRegister(s.rf, Rs1(w)), ReadRegister(s.rf, Rs2(w));
            Step(s, imem) ==
              Arch(Wrap(s.pc + 4), WriteRegister(s.rf, Rd(w), AluResult(Funct3(w) * 2 + Bit30(w), x, y)), s.dmem)
  {
    AluAgrees(w, ReadRegister(s.rf, Rs1(w)), ReadRegister(s.rf, Rs2(w)));
  }

  lemma {:induction false} RegisterRest(m: Machine, imem: Store, w: Word)
    requires AtFetch(m, imem, w) && Decode(w).Register?
    ensures Finishes(AfterDecode(m, w), imem, 2, Step(View(m), imem))
  {
    RegisterIs(View(m), imem, w);
    KindsAgree(w);
    RegisterPath(AfterDecode(m, w), imem, Step(View(m), imem));
  }

  lemma {:induction false} BranchIs(s: Arch, imem: Store, w: Word)
    requires w == Get(imem, WordAddress(s.pc)) && Decode(w).Branch?
    ensures var x, y := ReadRegister(s.rf, Rs1(w)), ReadRegister(s.rf, Rs2(w));
            Step(s, imem) ==
              Arch(if x == y then Wrap(s.pc + Immediate(IMM_B, w)) else Wrap(s.pc + 4), s.rf, s.dmem)
  {
    ImmBAgrees(w);
    WrapSum(s.pc, ImmB(w));
  }

  lemma {:induction false} BranchRest(m: Machine, imem: Store, w: Word)
    requires AtFetch(m, imem, w) && Decode(w).Branch?
    ensures Finishes(AfterDecode(m, w), imem, 1, Step(View(m), imem))
  {
    BranchIs(View(m), imem, w);
    KindsAgree(w);
    BranchPath(AfterDecode(m, w), imem, Step(View(m), imem));
  }

  /** Fetch, decode and the rest make one instruction. */
  lemma {:induction false} Assemble(m: Machine, imem: Store, w: Word, n: nat, s: Arch)
    requires AtFetch(m, imem, w) && Finishes(AfterDecode(m, w), imem, n, s)
    ensures Cycles(m, imem, n + 2).current == FETCH && View(Cycles(m, imem, n + 2)) == s
    ensures forall k :: 0 < k < n + 2 ==> Cycles(m, imem, k).current != FETCH
  {
    hide Cycle, Decode;
    FetchAndDecode(m, imem, w);
    IterateAdd(Clocked(imem), m, 2, n);
    forall k | 1 < k < n + 2
      ensures Cycles(m, imem, k).current != FETCH
    {
      IterateAdd(Clocked(imem), m, 2, k - 2);
      assert Cycles(AfterDecode(m, w), imem, k - 2).current != FETCH;
    }
  }

  /** Every supported instruction, in its fixed number of cycles: fetch comes back then and not earlier. */
  lemma {:induction false} StepSimulates(m: Machine, imem: Store, w: Word)
    requires AtFetch(m, imem, w) && !Decode(w).Unsupported?
    ensures var n := CycleCount(Decode(w)); var end := Cycles(m, imem, n);
            && end.current == FETCH && View(end) == Step(View(m), imem)
            && forall k :: 0 < k < n ==> Cycles(m, imem, k).current != FETCH
  {
    match Decode(w) {
      case Load(_, _, _) => LoadRest(m, imem, w);
      case StoreWord(_, _, _) => StoreRest(m, imem, w);
      case StoreNegated(_, _, _) => NegatedRest(m, imem, w);
      case Register(_, _, _, _) => RegisterRest(m, imem, w);
      case Branch(_, _, _) => BranchRest(m, imem, w);
    }
    Assemble(m, imem, w, CycleCount(Decode(w)) - 2, Step(View(m), imem));
  }

  // ----- programs -----

  function Steps(s: Arch, imem: Store, n: nat): Arch
    decreases n
  {
    if n == 0 then s else Steps(Step(s, imem), imem, n - 1)
  }

  function At(s: Arch, imem: Store): Instr {
    Decode(Get(imem, WordAddress(s.pc)))
  }

  /** The next `n` instructions are all supported. */
  ghost predicate Supported(s: Arch, imem: Store, n: nat)
    decreases n
  {
    n > 0 ==> !At(s, imem).Unsupported? && Supported(Step(s, imem), imem, n - 1)
  }

  /** The cycles they take. */
  function TotalCycles(s: Arch, imem: Store, n: nat): nat
    decreases n
  {
    if n == 0 then 0 else CycleCount(At(s, imem)) + TotalCycles(Step(s, imem), imem, n - 1)
  }

  /** The first instruction of a supported program, and what is left of it; there is no fetch before its end. */
  lemma {:induction false} OneInstruction(m: Machine, imem: Store, n: nat) returns (c: nat, next: Machine)
    requires m.current == FETCH && n > 0 && Supported(View(m), imem, n)
    ensures next == Cycles(m, imem, c) && next.current == FETCH && Supported(View(next), imem, n - 1)
    ensures c == CycleCount(At(View(m), imem)) > 0 && View(next) == Step(View(m), imem)
    ensures forall k :: 0 < k < c ==> Cycles(m, imem, k).current != FETCH
  {
    var w := Get(imem, WordAddress(m.pc));
    StepSimulates(m, imem, w);
    c := CycleCount(Decode(w));
    next := Cycles(m, imem, c);
    assert At(View(m), imem) == Decode(w);
  }

  lemma {:induction false} CyclesAdd(m: Machine, imem: Store, j: nat, k: nat, next: Machine)
    requires next == Cycles(m, imem, j)
    ensures Cycles(m, imem, j + k) == Cycles(next, imem, k)
  {
    IterateAdd(Clocked(imem), m, j, k);
  }

  /** Every program: after the cycles of its first `n` instructions the core is where the instruction set is. */
  lemma {:induction false} ProgramSimulates(m: Machine, imem: Store, n: nat)
    requires m.current == FETCH && Supported(View(m), imem, n)
    ensures var end := Cycles(m, imem, TotalCycles(View(m), imem, n));
            end.current == FETCH && View(end) == Steps(View(m), imem, n)
    decreases n
  {
    hide Step, Cycle, Supported, At, CycleCount;
    if n > 0 {
      var c, next := OneInstruction(m, imem, n);
      var rest := TotalCycles(View(next), imem, n - 1);
      CyclesAdd(m, imem, c, rest, next);
      ProgramSimulates(next, imem, n - 1);
      assert TotalCycles(View(m), imem, n) == c + rest;
    }
  }

  /** And there is no other fetch: each one in the run stands at the end of `j` instructions, in the state after `j` steps. */
  lemma {:induction false} EveryFetch(m: Machine, imem: Store, n: nat, k: nat) returns (j: nat)
    requires m.current == FETCH && Supported(View(m), imem, n) && k <= TotalCycles(View(m), imem, n)
    requires Cycles(m, imem, k).current == FETCH
    ensures j <= n && k == TotalCycles(View(m), imem, j) && View(Cycles(m, imem, k)) == Steps(View(m), imem, j)
    decreases n
  {
    hide Step, Cycle, Supported, At, CycleCount;
    j := 0;
    if k > 0 {
      var c, next := OneInstruction(m, imem, n);
      CyclesAdd(m, imem, c, k - c, next);
      j := EveryFetch(next, imem, n - 1, k - c);
      j := j + 1;
    }
  }

  /** The core fetches at the ends of instructions and nowhere else. */
  lemma {:induction false} FetchesExact(m: Machine, imem: Store, n: nat, k: nat)
    requires m.current == FETCH && Supported(View(m), imem, n) && k <= TotalCycles(View(m), imem, n)
    ensures Cycles(m, imem, k).current == FETCH <==> exists j :: 0 <= j <= n && k == TotalCycles(View(m), imem, j)
  {
    hide Step, Cycle, At, CycleCount;
    if Cycles(m, imem, k).current == FETCH {
      var j := EveryFetch(m, imem, n, k);
    }
    if j :| 0 <= j <= n && k == TotalCycles(View(m), imem, j) {
      SupportedFirst(View(m), imem, j, n);
      ProgramSimulates(m, imem, j);
    }
  }

  lemma {:induction false} SupportedFirst(s: Arch, imem: Store, j: nat, n: nat)
    requires j <= n && Supported(s, imem, n)
    ensures Supported(s, imem, j)
    decreases j
  {
    hide Step, At;
    if j > 0 {
      SupportedFirst(Step(s, imem), imem, j - 1, n - 1);
    }
  }

  // ----- the jump -----

  /** The third cycle of a jump: what decoding has left in the ALU register becomes the program counter. */
  lemma {:induction false} JumpCycle(e: Machine, imem: Store)
    requires e.current == JAL_EXEC
    ensures var end := Cycle(e, imem);
            && end.current == FETCH && end.pc == e.aluout && end.dmem == e.dmem
            && end.rf == WriteRegister(e.rf, Rd(e.ir), e.pc)
  {
    hide AluOf, AluResult;
  }

  /** What the core makes of a jump: the link is right, but the target is that of a branch with the same bits. */
  lemma {:induction false} JumpExact(m: Machine, imem: Store, w: Word)
    requires AtFetch(m, imem, w) && KindOf(w) == JAL
    ensures var end := Cycles(m, imem, 3);
            && end.current == FETCH && end.dmem == m.dmem && end.rf == WriteRegister(m.rf, Rd(w), Wrap(m.pc + 4))
            && end.pc == Wrap(m.pc + Immediate(IMM_B, w))
            && (end.pc == Wrap(m.pc + Immediate(IMM_J, w)) <==> Immediate(IMM_J, w) == Immediate(IMM_B, w))
  {
    hide Cycle, Control;
    FetchAndDecode(m, imem, w);
    CyclesAdd(m, imem, 2, 1, AfterDecode(m, w));
    ThreeTimes(Clocked(imem), AfterDecode(m, w));
    JumpCycle(AfterDecode(m, w), imem);
    SameTarget(m.pc, Immediate(IMM_J, w), Immediate(IMM_B, w));
  }

  lemma {:induction false} SameTarget(pc: Word, x: Word, y: Word)
    ensures Wrap(pc + x) == Wrap(pc + y) <==> x == y
  {
  }

  /** A jump by 8 whose upper bits, read as a branch, say 0. */
  lemma {:induction false} JumpMisses()
    ensures var w: Word := 0x0080_006F;
            KindOf(w) == JAL && Immediate(IMM_J, w) == 8 && Immediate(IMM_B, w) == 0
  {
    var w: Word := 0x0080_006F;
    assert Sign(w) == 0 && Opcode(w) == 0x6F;
    assert (w / 0x1000) % 0x100 == 0 && (w / 0x10_0000) % 2 == 0 && (w / 0x20_0000) % 0x400 == 4;
    assert (w / 0x80) % 2 == 0 && (w / 0x200_0000) % 0x40 == 0 && (w / 0x100) % 0x10 == 0;
    hide Sign, Opcode;
  }
}
