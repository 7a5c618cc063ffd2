/** What the words of the core mean: bits, signs, fields, registers and addresses, each on its own terms. */
module RiscVWords {
  import opened RiscV
  import opened Isa
  import opened RiscVLaws

  // ----- bits -----

  /** Bit `k` of a number, counted from the lowest. */
  function Bit(x: nat, k: nat): int {
    if k == 0 then x % 2 else Bit(x / 2, k - 1)
  }

  lemma {:induction false} XorBit(x: nat, y: nat, k: nat)
    ensures Bit(Xor(x, y), k) == 1 <==> Bit(x, k) != Bit(y, k)
    decreases k
  {
    if x == 0 && y == 0 {
      BitOfZero(k);
    } else {
      HalfXor(x, y);
      hide Xor;
      if k > 0 {
        XorBit(x / 2, y / 2, k - 1);
      } else {
        assert Bit(x, 0) == x % 2 && Bit(y, 0) == y % 2;
      }
    }
  }

  lemma {:induction false} HalfXor(x: nat, y: nat)
    ensures Xor(x, y) % 2 == (if x % 2 == y % 2 then 0 else 1) && Xor(x, y) / 2 == Xor(x / 2, y / 2)
  {
    var b := (x % 2 + y % 2) % 2;
    assert b == if x % 2 == y % 2 then 0 else 1;
  }

  lemma {:induction false} OrBit(x: nat, y: nat, k: nat)
    ensures Bit(Or(x, y), k) == 1 <==> Bit(x, k) == 1 || Bit(y, k) == 1
    decreases k
  {
    if x == 0 && y == 0 {
      BitOfZero(k);
    } else if k > 0 {
      OrBit(x / 2, y / 2, k - 1);
    }
  }

  lemma {:induction false} AndBit(x: nat, y: nat, k: nat)
    ensures Bit(And(x, y), k) == 1 <==> Bit(x, k) == 1 && Bit(y, k) == 1
    decreases k
  {
    if x == 0 && y == 0 {
      BitOfZero(k);
    } else {
      HalfAnd(x, y);
      if k > 0 {
        AndBit(x / 2, y / 2, k - 1);
      }
    }
  }

  lemma {:induction false} HalfAnd(x: nat, y: nat)
    ensures And(x, y) % 2 == (if x % 2 == 1 && y % 2 == 1 then 1 else 0) && And(x, y) / 2 == And(x / 2, y / 2)
  {
    var b := (x % 2) * (y % 2);
    assert b == if x % 2 == 1 && y % 2 == 1 then 1 else 0;
  }

  lemma {:induction false} BitOfZero(k: nat)
    ensures Bit(0, k) == 0
  {
    if k > 0 {
      BitOfZero(k - 1);
    }
  }

  lemma {:induction false} BitIsBit(x: nat, k: nat)
    ensures Bit(x, k) == 0 || Bit(x, k) == 1
  {
    if k > 0 {
      BitIsBit(x / 2, k - 1);
    }
  }

  /** Bitwise operations on `n` bits give `n` bits. */
  lemma {:induction false} BitwiseBound(x: nat, y: nat, n: nat)
    requires x < Pow2(n) && y < Pow2(n)
    ensures Xor(x, y) < Pow2(n) && Or(x, y) < Pow2(n) && And(x, y) < Pow2(n)
    decreases n
  {
    if n > 0 {
      HalfAnd(x, y);
      BitwiseBound(x / 2, y / 2, n - 1);
    }
  }

  lemma {:induction false} WordIs32Bits()
    ensures Pow2(32) == 0x1_0000_0000
  {
    assert Pow2(8) == 0x100;
    assert Pow2(16) == 0x1_0000;
    assert Pow2(24) == 0x100_0000;
  }

  /** The three bitwise instructions: each bit of the result depends on the same bits of the operands, as it should. */
  lemma {:induction false} BitwiseExact(x: Word, y: Word, k: nat)
    requires k < 32
    ensures Bit(Compute(XOR, x, y), k) == 1 <==> Bit(x, k) != Bit(y, k)
    ensures Bit(Compute(OR, x, y), k) == 1 <==> Bit(x, k) == 1 || Bit(y, k) == 1
    ensures Bit(Compute(AND, x, y), k) == 1 <==> Bit(x, k) == 1 && Bit(y, k) == 1
  {
    hide Xor, Or, And, Pow2, Bit;
    WordIs32Bits();
    BitwiseBound(x, y, 32);
    XorBit(x, y, k);
    OrBit(x, y, k);
    AndBit(x, y, k);
  }

  /** And its bits determine a word. */
  lemma {:induction false} BitsDetermine(x: nat, y: nat, n: nat)
    requires x < Pow2(n) && y < Pow2(n) && forall k :: 0 <= k < n ==> Bit(x, k) == Bit(y, k)
    ensures x == y
    decreases n
  {
    if n > 0 {
      forall k | 0 <= k < n - 1
        ensures Bit(x / 2, k) == Bit(y / 2, k)
      {
        assert Bit(x, k + 1) == Bit(y, k + 1);
      }
      BitsDetermine(x / 2, y / 2, n - 1);
      assert Bit(x, 0) == Bit(y, 0);
    }
  }

  // ----- shifts -----

  /** Remainders keep the low bits. */
  lemma {:induction false} BitOfRest(x: nat, n: nat, k: nat)
    requires k < n && Pow2(n) > 0
    ensures Bit(x % Pow2(n), k) == Bit(x, k)
    decreases k
  {
    var r, q := x % Pow2(n), x / Pow2(n);
    HalfOfRest(x, n);
    if k > 0 {
      BitOfRest(x / 2, n - 1, k - 1);
    }
  }

  lemma {:induction false} HalfOfRest(x: nat, n: nat)
    requires n > 0
    ensures Pow2(n) > 0 && Pow2(n - 1) > 0
    ensures (x % Pow2(n)) % 2 == x % 2 && (x % Pow2(n)) / 2 == (x / 2) % Pow2(n - 1)
  {
    Pow2Positive(n - 1);
    var p := Pow2(n - 1);
    var a, b := (x / 2) % p, x % 2;
    TwoQuotients(x, p);
    assert (2 * a + b) % 2 == b && (2 * a + b) / 2 == a;
    assert Pow2(n) == 2 * p;
    hide Pow2;
  }

  lemma {:induction false} Quotient(x: int, d: int, q: int, r: int)
    requires 0 <= r < d && x == q * d + r
    ensures x / d == q && x % d == r
  {
    SameDivision(x / d, x % d, q, r, d);
  }

  lemma {:induction false} SameDivision(p: int, s: int, q: int, r: int, d: int)
    requires 0 <= r < d && 0 <= s < d && p * d + s == q * d + r
    ensures p == q && r == s
  {
    if p < q {
      Before(p, s, q, r, d);
    } else if q < p {
      Before(q, r, p, s, d);
    }
  }

  lemma {:induction false} Before(p: int, s: int, q: int, r: int, d: int)
    requires 0 <= s < d && 0 <= r && p < q
    ensures p * d + s < q * d + r
  {
    Multiples(p + 1, q, d);
    assert (p + 1) * d == p * d + d;
  }

  lemma {:induction false} Multiples(p: int, q: int, d: int)
    requires p <= q && 0 <= d
    ensures p * d <= q * d
  {
    assert 0 <= (q - p) * d;
    assert (q - p) * d == q * d - p * d;
  }

  lemma {:induction false} Pow2Positive(n: nat)
    ensures Pow2(n) > 0
  {
    if n > 0 {
      Pow2Positive(n - 1);
    }
  }

  /** A left shift by less than 32 moves every bit up and fills in zeros; what leaves the word is lost. */
  lemma {:induction false} ShiftLeftBit(x: Word, y: Word, k: nat)
    requires y < 32 && k < 32
    ensures Bit(ShiftLeft(x, y), k) == if k < y then 0 else Bit(x, k - y)
  {
    WordIs32Bits();
    BitOfProduct(x, y, k);
    var moved := x * Pow2(y);
    hide Pow2, Bit;
    assert moved % Pow2(32) == Wrap(moved);
    BitOfRest(moved, 32, k);
  }

  lemma {:induction false} BitOfProduct(x: nat, y: nat, k: nat)
    ensures x * Pow2(y) >= 0 && Bit(x * Pow2(y), k) == if k < y then 0 else Bit(x, k - y)
    decreases y
  {
    Pow2Positive(y);
    if y > 0 {
      Pow2Positive(y - 1);
      var half := x * Pow2(y - 1);
      assert x * Pow2(y) == 2 * half;
      if k > 0 {
        BitOfProduct(x, y - 1, k - 1);
      }
    }
  }

  /** A right shift by less than 32 moves every bit down, whichever right shift it is. */
  lemma {:induction false} ShiftRightBit(x: Word, y: Word, k: nat)
    requires y < 32
    ensures Bit(ShiftRight(x, y), k) == Bit(x, k + y)
  {
    Pow2Positive(y);
    QuotientBound(x, Pow2(y));
    BitOfQuotient(x, y, k);
  }

  lemma {:induction false} QuotientBound(x: nat, d: nat)
    requires d > 0
    ensures 0 <= x / d <= x
  {
    Between(x / d, d, x % d);
  }

  lemma {:induction false} Between(q: int, d: int, r: int)
    requires 0 <= r < d && 0 <= q * d + r
    ensures 0 <= q <= q * d + r
  {
    assert q < 0 ==> q * d <= -d;
    assert q >= 0 ==> q * d >= q;
  }

  lemma {:induction false} BitOfQuotient(x: nat, y: nat, k: nat)
    ensures Pow2(y) > 0 && x / Pow2(y) >= 0 && Bit(x / Pow2(y), k) == Bit(x, k + y)
    decreases y
  {
    Pow2Positive(y);
    QuotientBound(x, Pow2(y));
    if y > 0 {
      Pow2Positive(y - 1);
      TwoQuotients(x, Pow2(y - 1));
      BitOfQuotient(x / 2, y - 1, k);
    }
  }

  lemma {:induction false} TwoQuotients(x: nat, d: nat)
    requires d > 0
    ensures x / (2 * d) == (x / 2) / d && x % (2 * d) == 2 * ((x / 2) % d) + x % 2
  {
    var q, r := (x / 2) / d, (x / 2) % d;
    assert x == 2 * (q * d + r) + x % 2;
    assert 2 * (q * d) == q * (2 * d);
    Quotient(x, 2 * d, q, 2 * r + x % 2);
  }

  /** The shifts of the manual, by the lowest five bits of the second operand; the last one copies the sign. */
  function Sll(x: Word, y: Word): Word { Wrap(x * Pow2(y % 32)) }

  function Srl(x: Word, y: Word): Word
    requires Pow2(y % 32) > 0
  {
    Wrap(x / Pow2(y % 32))
  }

  function Sra(x: Word, y: Word): Word
    requires Pow2(y % 32) > 0
  {
    Wrap(Signed(x) / Pow2(y % 32))
  }

  /** The core's shifts are those of the manual exactly under these conditions. */
  lemma {:induction false} ShiftsAgree(x: Word, y: Word)
    ensures Pow2(y % 32) > 0
    ensures ShiftLeft(x, y) == Sll(x, y) <==> y < 32 || Sll(x, y) == 0
    ensures ShiftRight(x, y) == Srl(x, y) <==> y < 32 || Srl(x, y) == 0
    ensures ShiftRight(x, y) == Sra(x, y) <==> if y < 32 then x < 0x8000_0000 || y == 0 else Sra(x, y) == 0
  {
    Pow2Positive(y % 32);
    hide Pow2;
    if y < 32 {
      assert y % 32 == y;
      SraAgrees(x, y);
    }
  }

  lemma {:induction false} SraAgrees(x: Word, y: Word)
    requires y < 32
    ensures Pow2(y) > 0 && (ShiftRight(x, y) == Wrap(Signed(x) / Pow2(y)) <==> x < 0x8000_0000 || y == 0)
  {
    Pow2Positive(y);
    if y > 0 {
      Pow2Positive(y - 1);
    }
    var d := Pow2(y);
    assert d >= 1 && (y > 0 ==> d >= 2) && (y == 0 ==> d == 1);
    hide Pow2;
    QuotientBound(x, d);
    SignMatters(x, d);
  }

  lemma {:induction false} SignMatters(x: Word, d: nat)
    requires d > 0 && 0 <= x / d <= x
    ensures Wrap(x / d) == Wrap(Signed(x) / d) <==> x < 0x8000_0000 || d == 1
  {
    if x >= 0x8000_0000 {
      if d == 1 {
        assert x / d == x && Signed(x) / d == Signed(x);
      } else {
        var p, q := x / d, Signed(x) / d;
        NegativeQuotient(Signed(x), d);
        SmallQuotient(x, d);
        assert Wrap(q) == q + 0x1_0000_0000 && Wrap(p) == p;
      }
    } else {
      assert Signed(x) == x;
    }
  }

  lemma {:induction false} NegativeQuotient(x: int, d: nat)
    requires -0x8000_0000 <= x < 0 && d > 0
    ensures -0x8000_0000 <= x / d < 0
  {
    var q, r := x / d, x % d;
    assert x == q * d + r && 0 <= r < d;
    NegativeBetween(q, d, r);
  }

  lemma {:induction false} NegativeBetween(q: int, d: int, r: int)
    requires 0 <= r < d && q * d + r < 0
    ensures q * d + r <= q < 0
  {
    if q >= 0 {
      Multiples(0, q, d);
    } else {
      Multiples(1, d, -(q + 1));
      assert d * -(q + 1) == -(q * d + d);
    }
  }

  lemma {:induction false} SmallQuotient(x: Word, d: nat)
    requires d >= 2
    ensures 0 <= x / d < 0x8000_0000
  {
    var q, r := x / d, x % d;
    assert x == q * d + r && 0 <= r < d;
    Between(q, d, r);
    Multiples(2, d, q);
  }

  /** A shift in the core: four cycles, and the shift of the datapath in the destination register. */
  lemma {:induction false} ShiftRuns(m: Machine, imem: Store, w: Word)
    requires AtFetch(m, imem, w) && Opcode(w) == 0x33 && (Funct3(w) == 5 || (Funct3(w) == 1 && Bit30(w) == 0))
    ensures var x, y := ReadRegister(m.rf, Rs1(w)), ReadRegister(m.rf, Rs2(w));
            var v := if Funct3(w) == 1 then ShiftLeft(x, y) else ShiftRight(x, y);
            && Cycles(m, imem, 4).current == FETCH
            && View(Cycles(m, imem, 4)) == Arch(Wrap(m.pc + 4), WriteRegister(m.rf, Rd(w), v), m.dmem)
  {
    hide Cycle, Cycles, Opcode, Funct3, Bit30, ShiftLeft, ShiftRight;
    var x, y := ReadRegister(m.rf, Rs1(w)), ReadRegister(m.rf, Rs2(w));
    var v := if Funct3(w) == 1 then ShiftLeft(x, y) else ShiftRight(x, y);
    BitIsSmall(w);
    var s := Arch(Wrap(m.pc + 4), WriteRegister(m.rf, Rd(w), v), m.dmem);
    RegisterPath(AfterDecode(m, w), imem, s);
    Assemble(m, imem, w, 2, s);
  }

  lemma BitIsSmall(w: Word)
    ensures 0 <= Bit30(w) < 2
  {
  }

  /** An unknown opcode is skipped in two cycles. */
  lemma {:induction false} UnknownSkipped(m: Machine, imem: Store, w: Word)
    requires AtFetch(m, imem, w) && KindOf(w) == NONE
    ensures Cycles(m, imem, 2).current == FETCH && View(Cycles(m, imem, 2)) == Arch(Wrap(m.pc + 4), m.rf, m.dmem)
  {
    FetchAndDecode(m, imem, w);
  }

  // ----- signs, registers, memory -----

  /** Two's complement. */
  lemma {:induction false} SignedIs(x: Word)
    ensures -0x8000_0000 <= Signed(x) < 0x8000_0000 && Signed(x) % 0x1_0000_0000 == x
  {
  }

  /** Register 0 reads as 0, whatever is written to it; any other reads as what was written last. */
  lemma {:induction false} RegisterIs(rf: Store, i: int, v: Word, j: int)
    ensures ReadRegister(WriteRegister(rf, i, v), j) == if j == 0 then 0 else if i == j then v else ReadRegister(rf, j)
  {
  }

  /** Addresses of the four bytes of one word, and no others within the 4096 bytes, name the same word. */
  lemma {:induction false} WordAddressIs(x: Word, y: Word)
    ensures 0 <= WordAddress(x) < 1024 && 4 * WordAddress(x) <= x % 4096 < 4 * WordAddress(x) + 4
    ensures WordAddress(x) == WordAddress(y) <==> (x % 4096) / 4 == (y % 4096) / 4
  {
    WordAddressAt(x);
    WordAddressAt(y);
  }

  lemma {:induction false} WordAddressAt(x: Word)
    ensures WordAddress(x) == (x % 4096) / 4
  {
    var a, r := x / 4, x % 4;
    assert x == 4096 * (a / 1024) + (4 * (a % 1024) + r);
  }

  // ----- fields -----

  /** A word put together from the fields of the R format. */
  function Assembled(f7: int, rs2: int, rs1: int, f3: int, rd: int, op: int): Word
    requires 0 <= f7 < 128 && 0 <= rs2 < 32 && 0 <= rs1 < 32 && 0 <= f3 < 8 && 0 <= rd < 32 && 0 <= op < 128
  {
    f7 * 0x200_0000 + rs2 * 0x10_0000 + rs1 * 0x8000 + f3 * 0x1000 + rd * 0x80 + op
  }

  /** Each field is read back from where it was put. */
  lemma {:induction false} FieldsExact(f7: int, rs2: int, rs1: int, f3: int, rd: int, op: int)
    requires 0 <= f7 < 128 && 0 <= rs2 < 32 && 0 <= rs1 < 32 && 0 <= f3 < 8 && 0 <= rd < 32 && 0 <= op < 128
    ensures var w := Assembled(f7, rs2, rs1, f3, rd, op);
            && Funct7(w) == f7 && Rs2(w) == rs2 && Rs1(w) == rs1 && Funct3(w) == f3 && Rd(w) == rd && Opcode(w) == op
            && Bit30(w) == (f7 / 32) % 2 && Sign(w) == f7 / 64
  {
    var w := Assembled(f7, rs2, rs1, f3, rd, op);
    assert w / 0x80 == f7 * 0x4_0000 + rs2 * 0x2000 + rs1 * 0x100 + f3 * 0x20 + rd;
    assert w / 0x1000 == f7 * 0x2000 + rs2 * 0x100 + rs1 * 8 + f3;
    assert w / 0x8000 == f7 * 0x400 + rs2 * 0x20 + rs1;
    assert w / 0x10_0000 == f7 * 0x20 + rs2;
    assert w / 0x200_0000 == f7;
    assert w / 0x4000_0000 == f7 / 32;
    assert w / 0x8000_0000 == f7 / 64;
  }

  // ----- instruction formats -----

  predicate IsRegister(i: int) { 0 <= i < 32 }

  /** An instruction that its format can express. */
  predicate WellFormed(i: Instr) {
    match i
    case Load(rd, rs1, imm) => IsRegister(rd) && IsRegister(rs1) && -2048 <= imm < 2048
    case StoreWord(rs1, rs2, imm) => IsRegister(rs1) && IsRegister(rs2) && -2048 <= imm < 2048
    case StoreNegated(rs1, rs2, imm) => IsRegister(rs1) && IsRegister(rs2) && -2048 <= imm < 2048
    case Register(_, rd, rs1, rs2) => IsRegister(rd) && IsRegister(rs1) && IsRegister(rs2)
    case Branch(rs1, rs2, imm) => IsRegister(rs1) && IsRegister(rs2) && -4096 <= imm < 4096 && imm % 2 == 0
    case Unsupported => false
  }

  function Functs(op: Op): (int, int) {
    match op
    case ADD => (0, 0)
    case SUB => (32, 0)
    case SLT => (0, 2)
    case SLTU => (0, 3)
    case XOR => (0, 4)
    case OR => (0, 6)
    case AND => (0, 7)
  }

  /** The I, R, S and B formats of the manual. */
  function Encode(i: Instr): Word
    requires WellFormed(i)
  {
    match i
    case Load(rd, rs1, imm) =>
      var u := imm % 4096;
      Assembled(u / 32, u % 32, rs1, 2, rd, 0x03)
    case StoreWord(rs1, rs2, imm) =>
      var u := imm % 4096;
      Assembled(u / 32, rs2, rs1, 2, u % 32, 0x23)
    case StoreNegated(rs1, rs2, imm) =>
      var u := imm % 4096;
      Assembled(u / 32, rs2, rs1, 3, u % 32, 0x23)
    case Register(op, rd, rs1, rs2) =>
      Assembled(Functs(op).0, rs2, rs1, Functs(op).1, rd, 0x33)
    case Branch(rs1, rs2, imm) =>
      var u := (imm % 8192) / 2;
      Assembled((u / 2048) * 64 + (u / 16) % 64, rs2, rs1, 0, (u % 16) * 2 + (u / 1024) % 2, 0x63)
  }

  /** Decoding undoes encoding: the model of the instruction set reads every supported instruction as the manual writes it. */
  lemma {:induction false} DecodeEncode(i: Instr)
    requires WellFormed(i)
    ensures Decode(Encode(i)) == i
  {
    match i
    case Load(rd, rs1, imm) => DecodeLoad(rd, rs1, imm);
    case StoreWord(rs1, rs2, imm) => DecodeStore(rs1, rs2, imm, 2);
    case StoreNegated(rs1, rs2, imm) => DecodeStore(rs1, rs2, imm, 3);
    case Register(op, rd, rs1, rs2) => FieldsExact(Functs(op).0, rs2, rs1, Functs(op).1, rd, 0x33);
    case Branch(rs1, rs2, imm) => DecodeBranch(rs1, rs2, imm);
  }

  lemma {:induction false} DecodeLoad(rd: int, rs1: int, imm: int)
    requires IsRegister(rd) && IsRegister(rs1) && -2048 <= imm < 2048
    ensures Decode(Encode(Load(rd, rs1, imm))) == Load(rd, rs1, imm)
  {
    hide Assembled, Opcode, Funct3, Funct7, Rd, Rs1, Rs2, ImmI;
    var u := imm % 4096;
    var w := Assembled(u / 32, u % 32, rs1, 2, rd, 0x03);
    FieldsExact(u / 32, u % 32, rs1, 2, rd, 0x03);
    ImmIFrom(w);
    assert ImmI(w) == imm;
  }

  lemma {:induction false} ImmIFrom(w: Word)
    ensures ImmI(w) == if Funct7(w) * 32 + Rs2(w) < 2048 then Funct7(w) * 32 + Rs2(w) else Funct7(w) * 32 + Rs2(w) - 4096
  {
    assert w / 0x10_0000 == (w / 0x200_0000) * 32 + (w / 0x10_0000) % 32;
  }

  lemma {:induction false} DecodeStore(rs1: int, rs2: int, imm: int, f3: int)
    requires IsRegister(rs1) && IsRegister(rs2) && -2048 <= imm < 2048 && 2 <= f3 <= 3
    ensures var w := Assembled((imm % 4096) / 32, rs2, rs1, f3, (imm % 4096) % 32, 0x23);
            Decode(w) == if f3 == 2 then StoreWord(rs1, rs2, imm) else StoreNegated(rs1, rs2, imm)
  {
    hide Assembled, Opcode, Funct3, Funct7, Rd, Rs1, Rs2;
    var u := imm % 4096;
    var w := Assembled(u / 32, rs2, rs1, f3, u % 32, 0x23);
    FieldsExact(u / 32, rs2, rs1, f3, u % 32, 0x23);
    ImmSFrom(w);
    assert ImmS(w) == imm;
  }

  lemma {:induction false} ImmSFrom(w: Word)
    ensures ImmS(w) == if Funct7(w) * 32 + Rd(w) < 2048 then Funct7(w) * 32 + Rd(w) else Funct7(w) * 32 + Rd(w) - 4096
  {
  }

  lemma {:induction false} DecodeBranch(rs1: int, rs2: int, imm: int)
    requires IsRegister(rs1) && IsRegister(rs2) && -4096 <= imm < 4096 && imm % 2 == 0
    ensures Decode(Encode(Branch(rs1, rs2, imm))) == Branch(rs1, rs2, imm)
  {
    hide Assembled, Opcode, Funct3, Funct7, Rd, Rs1, Rs2, Sign, ImmB;
    var u := (imm % 8192) / 2;
    var f7, rd := (u / 2048) * 64 + (u / 16) % 64, (u % 16) * 2 + (u / 1024) % 2;
    FieldsExact(f7, rs2, rs1, 0, rd, 0x63);
    var w := Assembled(f7, rs2, rs1, 0, rd, 0x63);
    ImmBFrom(w, u);
    assert ImmB(w) == imm;
  }

  /** The bits of half a branch offset, put together again. */
  lemma {:induction false} ImmBFrom(w: Word, u: int)
    requires 0 <= u < 4096
    requires Funct7(w) == (u / 2048) * 64 + (u / 16) % 64 && Sign(w) == u / 2048
    requires Rd(w) == (u % 16) * 2 + (u / 1024) % 2
    ensures ImmB(w) == if u < 2048 then 2 * u else 2 * u - 8192
  {
    hide Sign, Rd;
    assert (w / 0x200_0000) % 0x40 == (u / 16) % 64;
    assert Rd(w) % 2 == (u / 1024) % 2 && Rd(w) / 2 == u % 16;
    BranchBits(u);
  }

  lemma {:induction false} BranchBits(u: int)
    requires 0 <= u < 4096
    ensures (u / 2048) * 4096 + ((u / 1024) % 2) * 2048 + ((u / 16) % 64) * 32 + (u % 16) * 2 == 2 * u
    ensures u < 2048 <==> u / 2048 == 0
  {
    assert u == 16 * (u / 16) + u % 16;
    assert u / 16 == 64 * (u / 1024) + (u / 16) % 64;
    assert u / 1024 == 2 * (u / 2048) + (u / 1024) % 2;
  }

  /** The J format: the sign, ten bits, one bit and eight bits of half the offset. */
  function EncodeJump(rd: int, imm: int): Word
    requires IsRegister(rd) && -0x10_0000 <= imm < 0x10_0000 && imm % 2 == 0
  {
    var u := (imm % 0x20_0000) / 2;
    (u / 0x8_0000) * 0x8000_0000 + (u % 0x400) * 0x20_0000 + ((u / 0x400) % 2) * 0x10_0000
    + ((u / 0x800) % 0x100) * 0x1000 + rd * 0x80 + 0x6F
  }

  /** The J immediate of the datapath is the offset that the format encodes, modulo the word size. */
  lemma {:induction false} JumpImmediate(rd: int, imm: int)
    requires IsRegister(rd) && -0x10_0000 <= imm < 0x10_0000 && imm % 2 == 0
    ensures var w := EncodeJump(rd, imm);
            KindOf(w) == JAL && Rd(w) == rd && Immediate(IMM_J, w) == Wrap(imm)
  {
    hide Sign, Opcode, Rd, Immediate, Wrap;
    var u, w := (imm % 0x20_0000) / 2, EncodeJump(rd, imm);
    var s, a, b, c := u / 0x8_0000, u % 0x400, (u / 0x400) % 2, (u / 0x800) % 0x100;
    JumpFields(s, a, b, c, rd, w);
    JumpValue(imm, u, s);
    JumpBits(u);
    JumpGathers(w, s, a, b, c);
  }

  lemma {:induction false} JumpGathers(w: Word, s: int, a: int, b: int, c: int)
    requires Sign(w) == s && (w / 0x1000) % 0x100 == c && (w / 0x10_0000) % 2 == b && (w / 0x20_0000) % 0x400 == a
    ensures Immediate(IMM_J, w) == s * 0xFFF0_0000 + c * 0x1000 + b * 0x800 + a * 2
  {
    hide Sign;
  }

  lemma {:induction false} JumpValue(imm: int, u: int, s: int)
    requires -0x10_0000 <= imm < 0x10_0000 && imm % 2 == 0 && u == (imm % 0x20_0000) / 2 && s == u / 0x8_0000
    ensures Wrap(imm) == s * 0xFFF0_0000 + 2 * u - s * 0x10_0000 && 0 <= u < 0x10_0000
  {
    if imm < 0 {
      assert imm % 0x20_0000 == imm + 0x20_0000;
      assert Wrap(imm) == imm + 0x1_0000_0000;
    } else {
      assert imm % 0x20_0000 == imm && Wrap(imm) == imm;
    }
  }

  lemma {:induction false} JumpBits(u: int)
    requires 0 <= u < 0x10_0000
    ensures u == (u / 0x8_0000) * 0x8_0000 + ((u / 0x800) % 0x100) * 0x800 + ((u / 0x400) % 2) * 0x400 + u % 0x400
    ensures 0 <= u / 0x8_0000 < 2
  {
    assert u == 0x400 * (u / 0x400) + u % 0x400;
    assert u / 0x400 == 2 * (u / 0x800) + (u / 0x400) % 2;
    assert u / 0x800 == 0x100 * (u / 0x8_0000) + (u / 0x800) % 0x100;
  }

  lemma {:induction false} JumpFields(s: int, a: int, b: int, c: int, rd: int, w: Word)
    requires 0 <= s < 2 && 0 <= a < 0x400 && 0 <= b < 2 && 0 <= c < 0x100 && 0 <= rd < 32
    requires w == s * 0x8000_0000 + a * 0x20_0000 + b * 0x10_0000 + c * 0x1000 + rd * 0x80 + 0x6F
    ensures Sign(w) == s && Opcode(w) == 0x6F && Rd(w) == rd
    ensures (w / 0x1000) % 0x100 == c && (w / 0x10_0000) % 2 == b && (w / 0x20_0000) % 0x400 == a
  {
    hide Sign, Opcode, Rd;
    var v := s * 0x8_0000 + a * 0x200 + b * 0x100 + c;
    JumpLow(v, rd, w);
    JumpHigh(s, a, b, c, w / 0x1000);
    assert w / 0x10_0000 == w / 0x1000 / 0x100 && w / 0x20_0000 == w / 0x1000 / 0x200;
    assert w / 0x8000_0000 == w / 0x1000 / 0x8_0000;
    SignIs(w);
  }

  lemma {:induction false} JumpLow(v: nat, rd: int, w: Word)
    requires 0 <= rd < 32 && w == v * 0x1000 + rd * 0x80 + 0x6F
    ensures Opcode(w) == 0x6F && Rd(w) == rd && w / 0x1000 == v
  {
    assert w / 0x80 == v * 0x20 + rd;
  }

  lemma {:induction false} JumpHigh(s: int, a: int, b: int, c: int, v: int)
    requires 0 <= s < 2 && 0 <= a < 0x400 && 0 <= b < 2 && 0 <= c < 0x100
    requires v == s * 0x8_0000 + a * 0x200 + b * 0x100 + c
    ensures v % 0x100 == c && (v / 0x100) % 2 == b && (v / 0x200) % 0x400 == a && v / 0x8_0000 == s
  {
    assert v / 0x100 == s * 0x800 + a * 2 + b;
    assert v / 0x200 == s * 0x400 + a;
  }

  lemma {:induction false} SignIs(w: Word)
    ensures Sign(w) == w / 0x8000_0000
  {
  }
}
