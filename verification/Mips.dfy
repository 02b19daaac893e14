/**
 * The instruction set of the simulated processor, as `Instruction::Decode` and the switch in
 * `Machine::OneInstruction` have it, quirks included: OR combines rs with itself, the logical right shifts
 * are arithmetic, and the linking branches write their link before they read their operand.
 */
module Mips {
  import opened Bytes
  import opened Options
  import opened Instructions
  import opened Multiplier

  // ---- decoding ----

  datatype Format = IFmt | JFmt | RFmt

  function MajorOp(major: int): Op {
    if major == 2 then J else if major == 3 then JAL else if major == 4 then BEQ else if major == 5 then BNE
    else if major == 6 then BLEZ else if major == 7 then BGTZ else if major == 8 then ADDI else if major == 9 then ADDIU
    else if major == 10 then SLTI else if major == 11 then SLTIU else if major == 12 then ANDI else if major == 13 then ORI
    else if major == 14 then XORI else if major == 15 then LUI else if 16 <= major <= 19 then UNIMP
    else if major == 32 then LB else if major == 33 then LH else if major == 34 then LWL else if major == 35 then LW
    else if major == 36 then LBU else if major == 37 then LHU else if major == 38 then LWR
    else if major == 40 then SB else if major == 41 then SH else if major == 42 then SWL else if major == 43 then SW
    else if major == 46 then SWR else if 48 <= major <= 51 || 56 <= major <= 59 then UNIMP
    else RES
  }

  function SpecialOp(funct: int): Op {
    if funct == 0 then SLL else if funct == 2 then SRL else if funct == 3 then SRA else if funct == 4 then SLLV
    else if funct == 6 then SRLV else if funct == 7 then SRAV else if funct == 8 then JR else if funct == 9 then JALR
    else if funct == 12 then SYSCALL else if funct == 13 then UNIMP else if funct == 16 then MFHI else if funct == 17 then MTHI
    else if funct == 18 then MFLO else if funct == 19 then MTLO else if funct == 24 then MULT else if funct == 25 then MULTU
    else if funct == 26 then DIV else if funct == 27 then DIVU else if funct == 32 then ADD else if funct == 33 then ADDU
    else if funct == 34 then SUB else if funct == 35 then SUBU else if funct == 36 then AND else if funct == 37 then OR
    else if funct == 38 then XOR else if funct == 39 then NOR else if funct == 42 then SLT else if funct == 43 then SLTU
    else RES
  }

  function CondOp(rt: int): Op {
    if rt == 0 then BLTZ else if rt == 1 then BGEZ else if rt == 16 then BLTZAL else if rt == 17 then BGEZAL else UNIMP
  }

  function FormatOf(major: int): Format {
    if major == 0 then RFmt else if major == 2 || major == 3 then JFmt else IFmt
  }

  function Decode(value: Word): Instr {
    var major: int := value / 0x400_0000;
    var rs: Reg, rt: Reg, rd: Reg := value / 0x20_0000 % 32, value / 0x1_0000 % 32, value / 0x800 % 32;
    var half: int := value % 0x1_0000;
    var extra: int :=
      if FormatOf(major) == IFmt then (if half < 0x8000 then half else half - 0x1_0000)
      else if FormatOf(major) == RFmt then value / 64 % 32
      else value % 0x400_0000;
    var op := if major == 0 then SpecialOp(value % 64) else if major == 1 then CondOp(rt) else MajorOp(major);
    Instr(op, rs, rt, rd, extra)
  }

  // ---- what an instruction reads and writes ----

  predicate ReadsRs(i: Instr) {
    i.op !in {J, JAL, LUI, MFHI, MFLO, SLL, SRA, SRL, SYSCALL, UNIMP, RES}
  }

  predicate ReadsRt(i: Instr) {
    i.op in {ADD, ADDU, AND, BEQ, BNE, DIV, DIVU, MULT, MULTU, NOR, SB, SH, SLL, SLLV, SLT, SLTU, SRA, SRAV, SRL, SRLV,
             SUB, SUBU, SW, SWL, SWR, XOR}
  }

  predicate Merges(i: Instr) {
    i.op == LWR
  }

  /** The register written at once; loads are delayed. */
  function Dest(i: Instr): Option<Reg> {
    if i.op in {ADD, ADDU, AND, JALR, MFHI, MFLO, NOR, OR, SLL, SLLV, SLT, SLTU, SRA, SRAV, SRL, SRLV, SUB, SUBU, XOR} then Some(i.rd)
    else if i.op in {ADDI, ADDIU, ANDI, LUI, ORI, SLTI, SLTIU, XORI} then Some(i.rt)
    else if i.op in {BGEZAL, BLTZAL, JAL} then Some(31)
    else None
  }

  // ---- arithmetic on 32-bit words ----

  function Wrap(x: int): Word {
    x % 0x1_0000_0000
  }

  function Int(w: Word): int {
    if w < 0x8000_0000 then w else w - 0x1_0000_0000
  }

  predicate Negative(w: Word) {
    w >= 0x8000_0000
  }

  /** The bitwise operators of C, bit by bit from the lowest. */
  datatype Gate = AndGate | OrGate | XorGate

  function Through(g: Gate, x: int, y: int): int {
    match g
    case AndGate => if x == 1 && y == 1 then 1 else 0
    case OrGate => if x == 1 || y == 1 then 1 else 0
    case XorGate => if x != y then 1 else 0
  }

  function TwoTo(n: nat): (p: nat)
    ensures p > 0
  {
    if n == 0 then 1 else 2 * TwoTo(n - 1)
  }

  function Bitwise(g: Gate, a: nat, b: nat, n: nat): (r: nat)
    ensures r < TwoTo(n)
  {
    if n == 0 then 0 else Through(g, a % 2, b % 2) + 2 * Bitwise(g, a / 2, b / 2, n - 1)
  }

  lemma {:induction false} WordSize()
    ensures TwoTo(32) == 0x1_0000_0000
  {
    assert TwoTo(8) == 256;
    assert TwoTo(16) == 0x1_0000;
    assert TwoTo(24) == 0x100_0000;
  }

  function AndW(a: Word, b: Word): Word {
    WordSize();
    Bitwise(AndGate, a, b, 32)
  }

  function OrW(a: Word, b: Word): Word {
    WordSize();
    Bitwise(OrGate, a, b, 32)
  }

  function XorW(a: Word, b: Word): Word {
    WordSize();
    Bitwise(XorGate, a, b, 32)
  }

  function NotW(a: Word): Word {
    0xffff_ffff - a
  }

  function ShiftLeft(w: Word, n: nat): Word
    decreases n
  {
    if n == 0 then w else ShiftLeft(Wrap(2 * w), n - 1)
  }

  /** `>>` on a C int: the sign is kept. */
  function ShiftRight(w: Word, n: nat): Word
    decreases n
  {
    if n == 0 then w else ShiftRight(Wrap(Int(w) / 2), n - 1)
  }

  /** C division: the quotient is truncated towards zero. */
  function Quotient(a: int, b: int): int
    requires b != 0
  {
    var q := (if a < 0 then -a else a) / (if b < 0 then -b else b);
    if (a < 0) == (b < 0) then q else -q
  }

  function IfLess(less: bool): Word {
    if less then 1 else 0
  }

  // ---- what an instruction does ----

  function Result(o: Operands, value: Word): Action {
    Compute(value, o.hi, o.lo, Wrap(o.nextPC + 4))
  }

  function HiLo(o: Operands, hi: Word, lo: Word): Action {
    Compute(0, hi, lo, Wrap(o.nextPC + 4))
  }

  /** A branch relative to NextPC, with `link` for the register it writes, if any. */
  function Branch(i: Instr, o: Operands, taken: bool, link: Word): Action {
    Compute(link, o.hi, o.lo, if taken then Wrap(o.nextPC + 4 * i.extra) else Wrap(o.nextPC + 4))
  }

  function LoadWord(addr: Word, extend: Extend): Action {
    if addr % 4 != 0 then Raise(Misaligned, addr) else Load(addr, 4, extend)
  }

  function LoadHalf(addr: Word, extend: Extend): Action {
    if addr % 2 != 0 then Raise(Misaligned, addr) else Load(addr, 2, extend)
  }

  function Checked(o: Operands, a: Word, b: Word, sum: Word): Action {
    if Negative(a) == Negative(b) && Negative(a) != Negative(sum) then Raise(Overflow, 0) else Result(o, sum)
  }

  function Product(o: Operands, product: int): Action {
    HiLo(o, Wrap(product / 0x1_0000_0000), Wrap(product))
  }

  function DivSigned(o: Operands): Action {
    if o.rt == 0 then HiLo(o, 0, 0)
    else
      var q := Quotient(Int(o.rs), Int(o.rt));
      HiLo(o, Wrap(Int(o.rs) - q * Int(o.rt)), Wrap(q))
  }

  function DivUnsigned(o: Operands): Action {
    if o.rt == 0 then HiLo(o, 0, 0) else HiLo(o, Wrap(o.rs % o.rt), Wrap(o.rs / o.rt))
  }

  function Plan(i: Instr, o: Operands): Action {
    var addr := Wrap(o.rs + i.extra);
    var half: Word := i.extra % 0x1_0000;
    var link := Wrap(o.nextPC + 4);
    match i.op
    case ADD => Checked(o, o.rs, o.rt, Wrap(o.rs + o.rt))
    case ADDI => Checked(o, o.rs, Wrap(i.extra), addr)
    case ADDIU => Result(o, addr)
    case ADDU => Result(o, Wrap(o.rs + o.rt))
    case AND => Result(o, AndW(o.rs, o.rt))
    case ANDI => Result(o, AndW(o.rs, half))
    case BEQ => Branch(i, o, o.rs == o.rt, 0)
    case BGEZ => Branch(i, o, !Negative(o.rs), 0)
    case BGEZAL => Branch(i, o, !Negative(if i.rs == 31 then link else o.rs), link)
    case BGTZ => Branch(i, o, Int(o.rs) > 0, 0)
    case BLEZ => Branch(i, o, Int(o.rs) <= 0, 0)
    case BLTZ => Branch(i, o, Negative(o.rs), 0)
    case BLTZAL => Branch(i, o, Negative(if i.rs == 31 then link else o.rs), link)
    case BNE => Branch(i, o, o.rs != o.rt, 0)
    case DIV => DivSigned(o)
    case DIVU => DivUnsigned(o)
    case J => Compute(0, o.hi, o.lo, Wrap(link / 0x1000_0000 * 0x1000_0000 + i.extra % 0x400_0000 * 4))
    case JAL => Compute(link, o.hi, o.lo, Wrap(link / 0x1000_0000 * 0x1000_0000 + i.extra % 0x400_0000 * 4))
    case JALR => Compute(link, o.hi, o.lo, if i.rs == i.rd then link else o.rs)
    case JR => Compute(0, o.hi, o.lo, o.rs)
    case LB => Load(addr, 1, SignByte)
    case LBU => Load(addr, 1, ZeroByte)
    case LH => LoadHalf(addr, SignHalf)
    case LHU => LoadHalf(addr, ZeroHalf)
    case LUI => Result(o, Wrap(half * 0x1_0000))
    case LW => LoadWord(addr, Whole)
    case LWL => if addr % 4 != 0 then Abort else Load(addr, 4, Whole)
    case LWR => if addr % 4 != 0 then Abort else Load(addr, 4, MergeRight)
    case MFHI => Result(o, o.hi)
    case MFLO => Result(o, o.lo)
    case MTHI => HiLo(o, o.rs, o.lo)
    case MTLO => HiLo(o, o.hi, o.rs)
    case MULT => Product(o, Int(o.rs) * Int(o.rt))
    case MULTU => Product(o, o.rs * o.rt)
    case NOR => Result(o, NotW(OrW(o.rs, o.rt)))
    case OR => Result(o, OrW(o.rs, o.rs))
    case ORI => Result(o, OrW(o.rs, half))
    case SB => Store(addr, 1, o.rt)
    case SH => Store(addr, 2, o.rt)
    case SLL => Result(o, ShiftLeft(o.rt, i.extra % 32))
    case SLLV => Result(o, ShiftLeft(o.rt, o.rs % 32))
    case SLT => Result(o, IfLess(Int(o.rs) < Int(o.rt)))
    case SLTI => Result(o, IfLess(Int(o.rs) < i.extra))
    case SLTIU => Result(o, IfLess(o.rs < Wrap(i.extra)))
    case SLTU => Result(o, IfLess(o.rs < o.rt))
    case SRA => Result(o, ShiftRight(o.rt, i.extra % 32))
    case SRAV => Result(o, ShiftRight(o.rt, o.rs % 32))
    case SRL => Result(o, ShiftRight(o.rt, i.extra % 32))
    case SRLV => Result(o, ShiftRight(o.rt, o.rs % 32))
    case SUB => if Negative(o.rs) != Negative(o.rt) && Negative(o.rs) != Negative(Wrap(o.rs - o.rt)) then Raise(Overflow, 0)
                else Result(o, Wrap(o.rs - o.rt))
    case SUBU => Result(o, Wrap(o.rs - o.rt))
    case SW => Store(addr, 4, o.rt)
    case SWL => if addr % 4 != 0 then Abort else Modify(addr, true, o.rt)
    case SWR => if addr % 4 != 0 then Abort else Modify(addr, false, o.rt)
    case XOR => Result(o, XorW(o.rs, o.rt))
    case XORI => Result(o, XorW(o.rs, half))
    case SYSCALL => Raise(Syscall, 0)
    case UNIMP => Raise(IllegalInstr, 0)
    case RES => Raise(IllegalInstr, 0)
  }

  /** The simulated processor. */
  function R2000(): Isa {
    Isa(Decode, ReadsRs, ReadsRt, Merges, Dest, Plan)
  }

  /**
   * The two words that the multiplier leaves, as unsigned patterns, are what MULT and MULTU are to put into Hi
   * and Lo: `hi` signed for the one, unsigned for the other.
   */
  lemma {:induction false} ProductWords(i: Instr, o: Operands, hi: int, lo: int)
    requires (i.op == MULT && IsInt(hi)) || (i.op == MULTU && IsUnsigned(hi))
    requires IsUnsigned(lo)
    requires hi * 0x1_0000_0000 + lo == if i.op == MULT then Int(o.rs) * Int(o.rt) else o.rs * o.rt
    ensures Plan(i, o) == HiLo(o, if i.op == MULT then Unsigned(hi) else hi, lo)
  {
    HighAndLow(hi, lo);
  }

  lemma {:induction false} HighAndLow(hi: int, lo: int)
    requires IsUnsigned(lo) && (IsInt(hi) || IsUnsigned(hi))
    ensures var p := hi * 0x1_0000_0000 + lo;
      p / 0x1_0000_0000 == hi && Wrap(p) == lo && Wrap(hi) == if IsUnsigned(hi) then hi else Unsigned(hi)
  {}

  /** The multiplier does what the plan of MULT and MULTU says. */
  method Multiply(i: Instr, o: Operands) returns (action: Action)
    requires i.op == MULT || i.op == MULTU
    ensures action == Plan(i, o)
  {
    var hi, lo := Mult(Int(o.rs), Int(o.rt), i.op == MULT);
    SameWord(o.rs);
    SameWord(o.rt);
    ProductWords(i, o, if i.op == MULT then hi else Unsigned(hi), Unsigned(lo));
    action := HiLo(o, Unsigned(hi), Unsigned(lo));
  }

  lemma {:induction false} SameWord(w: Word)
    ensures IsInt(Int(w)) && Unsigned(Int(w)) == w
  {}
}
