/**
 * Laws of the instruction set: the encoding of instructions, and what arithmetic, logic, shifts, division,
 * comparisons and branches are for, each said of the results and not of how they are computed.
 */
module MipsLaws {
  import opened Bytes
  import opened Options
  import opened Instructions
  import opened Mips

  // ---- encoding ----

  /** The major opcode of an instruction, as the assembler writes it. */
  function Major(op: Op): int {
    match op
    case BLTZ => 1 case BGEZ => 1 case BLTZAL => 1 case BGEZAL => 1
    case J => 2 case JAL => 3 case BEQ => 4 case BNE => 5 case BLEZ => 6 case BGTZ => 7
    case ADDI => 8 case ADDIU => 9 case SLTI => 10 case SLTIU => 11 case ANDI => 12 case ORI => 13 case XORI => 14 case LUI => 15
    case LB => 32 case LH => 33 case LWL => 34 case LW => 35 case LBU => 36 case LHU => 37 case LWR => 38
    case SB => 40 case SH => 41 case SWL => 42 case SW => 43 case SWR => 46
    case _ => 0
  }

  /** The function code of a register instruction. */
  function Function(op: Op): int {
    match op
    case SLL => 0 case SRL => 2 case SRA => 3 case SLLV => 4 case SRLV => 6 case SRAV => 7 case JR => 8 case JALR => 9
    case SYSCALL => 12 case MFHI => 16 case MTHI => 17 case MFLO => 18 case MTLO => 19
    case MULT => 24 case MULTU => 25 case DIV => 26 case DIVU => 27
    case ADD => 32 case ADDU => 33 case SUB => 34 case SUBU => 35 case AND => 36 case OR => 37 case XOR => 38 case NOR => 39
    case SLT => 42 case SLTU => 43
    case _ => 63
  }

  /** What the branches on the sign have in place of a second register. */
  function Condition(op: Op): int {
    match op
    case BLTZ => 0 case BGEZ => 1 case BLTZAL => 16 case BGEZAL => 17
    case _ => -1
  }

  predicate OneReserved(op: Op) {
    op == UNIMP || op == RES
  }

  /** The fields fit, and those that share bits of the word agree. */
  predicate Encodable(i: Instr) {
    && !OneReserved(i.op)
    && if Major(i.op) == 0 then 0 <= i.extra < 32
       else if i.op == J || i.op == JAL then
         0 <= i.extra < 0x400_0000 && i.rs == i.extra / 0x20_0000 && i.rt == i.extra / 0x1_0000 % 32 && i.rd == i.extra / 0x800 % 32
       else
         -0x8000 <= i.extra < 0x8000 && i.rd == i.extra % 0x1_0000 / 0x800 && (Major(i.op) == 1 ==> i.rt == Condition(i.op))
  }

  function Encode(i: Instr): (w: int)
    requires Encodable(i)
    ensures IsUnsigned(w)
  {
    if Major(i.op) == 0 then i.rs * 0x20_0000 + i.rt * 0x1_0000 + i.rd * 0x800 + i.extra * 64 + Function(i.op)
    else if i.op == J || i.op == JAL then Major(i.op) * 0x400_0000 + i.extra
    else Major(i.op) * 0x400_0000 + i.rs * 0x20_0000 + i.rt * 0x1_0000 + i.extra % 0x1_0000
  }

  lemma {:induction false} At26(hi: int, lo: int)
    requires 0 <= lo < 0x400_0000
    ensures (hi * 0x400_0000 + lo) / 0x400_0000 == hi && (hi * 0x400_0000 + lo) % 0x400_0000 == lo
  {}

  lemma {:induction false} At21(hi: int, lo: int)
    requires 0 <= lo < 0x20_0000
    ensures (hi * 0x20_0000 + lo) / 0x20_0000 == hi
  {}

  lemma {:induction false} At16(hi: int, lo: int)
    requires 0 <= lo < 0x1_0000
    ensures (hi * 0x1_0000 + lo) / 0x1_0000 == hi && (hi * 0x1_0000 + lo) % 0x1_0000 == lo
  {}

  lemma {:induction false} At11(hi: int, lo: int)
    requires 0 <= lo < 0x800
    ensures (hi * 0x800 + lo) / 0x800 == hi
  {}

  lemma {:induction false} At6(hi: int, lo: int)
    requires 0 <= lo < 64
    ensures (hi * 64 + lo) / 64 == hi && (hi * 64 + lo) % 64 == lo
  {}

  lemma {:induction false} At5(hi: int, lo: int)
    requires 0 <= lo < 32
    ensures (hi * 32 + lo) / 32 == hi && (hi * 32 + lo) % 32 == lo
  {}

  /** The upper fields, over sixteen bits `half`. */
  lemma {:induction false} UpperFields(w: int, major: int, rs: Reg, rt: Reg, half: int)
    requires 0 <= half < 0x1_0000 && w == major * 0x400_0000 + rs * 0x20_0000 + rt * 0x1_0000 + half
    ensures w / 0x400_0000 == major && w / 0x20_0000 % 32 == rs && w / 0x1_0000 % 32 == rt && w % 0x1_0000 == half
  {
    At26(major, rs * 0x20_0000 + rt * 0x1_0000 + half);
    At21(major * 32 + rs, rt * 0x1_0000 + half);
    At16((major * 32 + rs) * 32 + rt, half);
    At5(major, rs);
    At5(major * 32 + rs, rt);
  }

  /** The field that the lower sixteen bits begin with. */
  lemma {:induction false} LowerField(w: int, hi: int, half: int)
    requires 0 <= half < 0x1_0000 && w == hi * 0x1_0000 + half
    ensures w / 0x800 % 32 == half / 0x800
  {
    var rd := half / 0x800;
    At11(hi * 32 + rd, half % 0x800);
    At5(hi, rd);
  }

  lemma {:induction false} RegisterFields(w: int, rs: Reg, rt: Reg, rd: Reg, extra: int, funct: int)
    requires 0 <= extra < 32 && 0 <= funct < 64 && w == rs * 0x20_0000 + rt * 0x1_0000 + rd * 0x800 + extra * 64 + funct
    ensures w / 0x400_0000 == 0 && w / 0x20_0000 % 32 == rs && w / 0x1_0000 % 32 == rt && w / 0x800 % 32 == rd
    ensures w / 64 % 32 == extra && w % 64 == funct
  {
    var half := rd * 0x800 + extra * 64 + funct;
    UpperFields(w, 0, rs, rt, half);
    LowerField(w, rs * 32 + rt, half);
    At11(rd, extra * 64 + funct);
    At6(rs * 0x8000 + rt * 0x400 + rd * 32 + extra, funct);
    At5(rs * 0x400 + rt * 32 + rd, extra);
  }

  lemma {:induction false} ImmediateFields(w: int, major: int, rs: Reg, rt: Reg, half: int)
    requires 0 <= half < 0x1_0000 && w == major * 0x400_0000 + rs * 0x20_0000 + rt * 0x1_0000 + half
    ensures w / 0x400_0000 == major && w / 0x20_0000 % 32 == rs && w / 0x1_0000 % 32 == rt && w / 0x800 % 32 == half / 0x800
    ensures w % 0x1_0000 == half
  {
    UpperFields(w, major, rs, rt, half);
    LowerField(w, (major * 32 + rs) * 32 + rt, half);
  }

  lemma {:induction false} TargetFields(target: int)
    requires 0 <= target < 0x400_0000
    ensures var rs, rt, half := target / 0x20_0000, target / 0x1_0000 % 32, target % 0x1_0000;
      0 <= rs < 32 && target == rs * 0x20_0000 + rt * 0x1_0000 + half && target / 0x800 % 32 == half / 0x800
  {
    var a, half := target / 0x1_0000, target % 0x1_0000;
    LowerField(target, a, half);
    assert a / 32 == target / 0x20_0000;
  }

  lemma {:induction false} JumpFields(w: int, major: int, target: int)
    requires 0 <= target < 0x400_0000 && w == major * 0x400_0000 + target
    ensures w / 0x400_0000 == major && w / 0x20_0000 % 32 == target / 0x20_0000 && w / 0x1_0000 % 32 == target / 0x1_0000 % 32
    ensures w / 0x800 % 32 == target / 0x800 % 32 && w % 0x400_0000 == target
  {
    TargetFields(target);
    ImmediateFields(w, major, target / 0x20_0000, target / 0x1_0000 % 32, target % 0x1_0000);
    At26(major, target);
  }

  /** What is encoded is what is decoded. */
  lemma {:induction false} DecodeEncoded(i: Instr)
    requires Encodable(i)
    ensures Decode(Encode(i)) == i
  {
    if Major(i.op) == 0 {
      RegisterFields(Encode(i), i.rs, i.rt, i.rd, i.extra, Function(i.op));
      FunctionMeans(i.op);
    } else if i.op == J || i.op == JAL {
      JumpFields(Encode(i), Major(i.op), i.extra);
    } else {
      ImmediateFields(Encode(i), Major(i.op), i.rs, i.rt, i.extra % 0x1_0000);
      HalfSigned(i.extra);
      MajorDecodes(i.op);
    }
  }

  lemma {:induction false} HalfSigned(extra: int)
    requires -0x8000 <= extra < 0x8000
    ensures var half := extra % 0x1_0000; extra == if half < 0x8000 then half else half - 0x1_0000
  {}

  lemma {:induction false} FunctionMeans(op: Op)
    requires Major(op) == 0 && !OneReserved(op)
    ensures SpecialOp(Function(op)) == op && 0 <= Function(op) < 64
  {
    match op
    case SLL => case SRL => case SRA => case SLLV => case SRLV => case SRAV => case JR => case JALR => case SYSCALL =>
    case MFHI => case MTHI => case MFLO => case MTLO => case MULT => case MULTU => case DIV => case DIVU =>
    case ADD => case ADDU => case SUB => case SUBU => case AND => case OR => case XOR => case NOR => case SLT => case SLTU =>
  }

  lemma {:induction false} MajorDecodes(op: Op)
    requires Major(op) != 0 && op != J && op != JAL
    ensures FormatOf(Major(op)) == IFmt && (if Major(op) == 1 then CondOp(Condition(op)) else MajorOp(Major(op))) == op
  {}

  lemma {:induction false} WordFields(w: Word)
    ensures var major, rs, rt, rd, extra, funct := w / 0x400_0000, w / 0x20_0000 % 32, w / 0x1_0000 % 32, w / 0x800 % 32, w / 64 % 32, w % 64;
      && 0 <= major < 64
      && w == major * 0x400_0000 + rs * 0x20_0000 + rt * 0x1_0000 + w % 0x1_0000
      && w % 0x1_0000 == rd * 0x800 + extra * 64 + funct && rd == w % 0x1_0000 / 0x800
  {
    var a, b, c, d := w / 64, w / 0x800, w / 0x1_0000, w / 0x20_0000;
    assert a / 32 == b;
    assert b / 32 == c;
    assert c / 32 == d;
    assert d / 32 == w / 0x400_0000;
    var half := (b % 32) * 0x800 + (a % 32) * 64 + w % 64;
    assert w == c * 0x1_0000 + half;
    At16(c, half);
    At11(b % 32, (a % 32) * 64 + w % 64);
  }

  /** And every word that is not reserved is the encoding of what it decodes to: no two mean the same. */
  lemma {:induction false} EncodeDecoded(w: Word)
    requires !OneReserved(Decode(w).op)
    ensures Encodable(Decode(w)) && Encode(Decode(w)) == w
  {
    WordFields(w);
    var i, major := Decode(w), w / 0x400_0000;
    if major == 0 {
      SpecialMeans(w % 64);
    } else if major == 1 {
      CondMeans(w / 0x1_0000 % 32);
      SignedHalf(w % 0x1_0000);
    } else {
      MajorMeans(major);
      SignedHalf(w % 0x1_0000);
      if major == 2 || major == 3 {
        TargetOf(w);
      }
    }
  }

  lemma {:induction false} SignedHalf(half: int)
    requires 0 <= half < 0x1_0000
    ensures var extra := if half < 0x8000 then half else half - 0x1_0000; -0x8000 <= extra < 0x8000 && extra % 0x1_0000 == half
  {}

  lemma {:induction false} TargetOf(w: Word)
    ensures var target := w % 0x400_0000;
      && w == w / 0x400_0000 * 0x400_0000 + target && w / 0x20_0000 % 32 == target / 0x20_0000
      && w / 0x1_0000 % 32 == target / 0x1_0000 % 32 && w / 0x800 % 32 == target / 0x800 % 32
  {
    JumpFields(w, w / 0x400_0000, w % 0x400_0000);
  }

  lemma {:induction false} SpecialMeans(funct: int)
    requires !OneReserved(SpecialOp(funct))
    ensures Major(SpecialOp(funct)) == 0 && Function(SpecialOp(funct)) == funct
  {}

  lemma {:induction false} CondMeans(rt: int)
    requires !OneReserved(CondOp(rt))
    ensures Major(CondOp(rt)) == 1 && Condition(CondOp(rt)) == rt && CondOp(rt) != J && CondOp(rt) != JAL
  {}

  lemma {:induction false} MajorMeans(major: int)
    requires major > 1 && !OneReserved(MajorOp(major))
    ensures Major(MajorOp(major)) == major && (MajorOp(major) == J <==> major == 2) && (MajorOp(major) == JAL <==> major == 3)
  {}

  // ---- addition and subtraction ----

  /** The instruction goes on to the next with this result. */
  predicate Gives(i: Instr, o: Operands, value: int) {
    var a := Plan(i, o);
    a.Compute? && a.value == value && a.hi == o.hi && a.lo == o.lo && a.pcAfter == (o.nextPC + 4) % 0x1_0000_0000
  }

  lemma {:induction false} WrapSum(x: int)
    requires -0x1_0000_0000 <= x < 0x2_0000_0000
    ensures Wrap(x) == if x < 0 then x + 0x1_0000_0000 else if x < 0x1_0000_0000 then x else x - 0x1_0000_0000
  {}

  lemma {:induction false} SumTraps(a: Word, b: Word)
    ensures var exact, sum := Int(a) + Int(b), Wrap(a + b);
      (IsInt(exact) <==> !(Negative(a) == Negative(b) && Negative(a) != Negative(sum))) && (IsInt(exact) ==> Int(sum) == exact)
  {
    WrapSum(a + b);
  }

  lemma {:induction false} DifferenceTraps(a: Word, b: Word)
    ensures var exact, diff := Int(a) - Int(b), Wrap(a - b);
      (IsInt(exact) <==> !(Negative(a) != Negative(b) && Negative(a) != Negative(diff))) && (IsInt(exact) ==> Int(diff) == exact)
  {
    WrapSum(a - b);
  }

  /** ADD traps exactly if the true sum is no C int, and else gives it. */
  lemma {:induction false} SignedSum(i: Instr, o: Operands) returns (v: Word)
    requires i.op == ADD
    ensures if IsInt(Int(o.rs) + Int(o.rt)) then Gives(i, o, v) && Int(v) == Int(o.rs) + Int(o.rt) else Plan(i, o) == Raise(Overflow, 0)
  {
    v := Wrap(o.rs + o.rt);
    SumTraps(o.rs, o.rt);
  }

  /** SUB likewise with the true difference. */
  lemma {:induction false} SignedDifference(i: Instr, o: Operands) returns (v: Word)
    requires i.op == SUB
    ensures if IsInt(Int(o.rs) - Int(o.rt)) then Gives(i, o, v) && Int(v) == Int(o.rs) - Int(o.rt) else Plan(i, o) == Raise(Overflow, 0)
  {
    v := Wrap(o.rs - o.rt);
    DifferenceTraps(o.rs, o.rt);
  }

  lemma {:induction false} WrapTwice(a: Word, x: int)
    requires -0x8000 <= x < 0x8000
    ensures Wrap(a + Wrap(x)) == Wrap(a + x)
  {
    WrapSum(x);
    WrapSum(a + x);
    WrapSum(a + Wrap(x));
  }

  /** Without overflow checks the sum is right up to 2^32, and subtraction takes back what addition adds. */
  lemma {:induction false} WrappedSums(i: Instr, j: Instr, o: Operands) returns (sum: Word)
    requires i.op == ADDU && j.op == SUBU
    ensures Gives(i, o, sum) && (sum == o.rs + o.rt || sum == o.rs + o.rt - 0x1_0000_0000)
    ensures Gives(j, o.(rs := sum), o.rs)
    ensures Gives(j, o.(rs := sum, rt := o.rs), o.rt)
  {
    sum := Wrap(o.rs + o.rt);
    WrapSum(o.rs + o.rt);
    WrapSum(sum - o.rt);
    WrapSum(sum - o.rs);
  }

  /** The immediate forms are the register forms on the sign-extended immediate. */
  lemma {:induction false} ImmediateSums(i: Instr, o: Operands)
    requires -0x8000 <= i.extra < 0x8000 && Int(o.rt) == i.extra
    ensures Plan(i.(op := ADDI), o) == Plan(i.(op := ADD), o)
    ensures Plan(i.(op := ADDIU), o) == Plan(i.(op := ADDU), o)
  {
    WrapSum(i.extra);
    WrapTwice(o.rs, i.extra);
  }

  lemma {:induction false} ImmediateComparison(i: Instr, o: Operands)
    requires -0x8000 <= i.extra < 0x8000 && Int(o.rt) == i.extra
    ensures Plan(i.(op := SLTI), o) == Plan(i.(op := SLT), o)
  {}

  lemma {:induction false} UnsignedComparison(i: Instr, o: Operands)
    requires -0x8000 <= i.extra < 0x8000 && Int(o.rt) == i.extra
    ensures Plan(i.(op := SLTIU), o) == Plan(i.(op := SLTU), o)
  {
    WrapSum(i.extra);
  }

  /** Comparison: signed, of the ints; unsigned, of the words. */
  lemma {:induction false} Comparisons(i: Instr, o: Operands)
    requires i.op == SLT || i.op == SLTU
    ensures var d := if i.op == SLT then Int(o.rs) - Int(o.rt) else o.rs - o.rt; Gives(i, o, if d < 0 then 1 else 0)
  {}

  // ---- division ----

  lemma {:induction false} Signs(x: int, y: int)
    ensures (-x) * y == -(x * y) && x * -y == -(x * y) && (-x) * -y == x * y
  {}

  lemma {:induction false} SignedTimes(q: int, e: int, na: bool, nb: bool)
    ensures (if na == nb then q else -q) * (if nb then -e else e) == if na then -(q * e) else q * e
  {
    Signs(q, e);
  }

  lemma {:induction false} QuotientTimes(a: int, b: int)
    requires b != 0
    ensures var m, e := Magnitude(a), Magnitude(b);
      Quotient(a, b) * b == if a < 0 then -((m / e) * e) else (m / e) * e
  {
    SignedTimes(Magnitude(a) / Magnitude(b), Magnitude(b), a < 0, b < 0);
  }

  lemma {:induction false} Divides(a: int, b: int)
    requires b != 0
    ensures var q := Quotient(a, b); var r := a - q * b;
      && Magnitude(r) < Magnitude(b) && (r == 0 || (r < 0 <==> a < 0))
      && Magnitude(q) <= Magnitude(a) && (Magnitude(b) >= 2 ==> 2 * Magnitude(q) <= Magnitude(a))
      && (b == 1 ==> q == a) && (b == -1 ==> q == -a)
  {
    var m, e := Magnitude(a), Magnitude(b);
    assert m == (m / e) * e + m % e;
    QuotientSmall(m, e);
    QuotientTimes(a, b);
  }

  function Magnitude(x: int): nat {
    if x < 0 then -x else x
  }

  lemma {:induction false} QuotientSmall(m: nat, e: nat)
    requires e > 0
    ensures m / e <= m && (e >= 2 ==> 2 * (m / e) <= m) && (e == 1 ==> m / e == m)
  {
    var q := m / e;
    assert q * e <= m;
    if e >= 2 {
      assert q * e >= q * 2;
    }
  }

  /**
   * DIV: quotient times divisor plus remainder is the dividend, the remainder is smaller than the divisor and
   * has the dividend's sign; but the one quotient that is no int wraps. A zero divisor gives zeros.
   */
  lemma {:induction false} SignedDivision(i: Instr, o: Operands)
    requires i.op == DIV
    ensures Plan(i, o).Compute?
    ensures var a := Plan(i, o); var n, d, q, r := Int(o.rs), Int(o.rt), Int(a.lo), Int(a.hi);
      if d == 0 then a.hi == 0 && a.lo == 0
      else if n == -0x8000_0000 && d == -1 then q == n && r == 0
      else n == q * d + r && Magnitude(r) < Magnitude(d) && (r == 0 || (r < 0 <==> n < 0))
  {
    var n, d := Int(o.rs), Int(o.rt);
    if d != 0 {
      Divides(n, d);
      var q := Quotient(n, d);
      Fits(q, n, d);
      Fits(n - q * d, n, d);
    }
  }

  lemma {:induction false} Fits(x: int, n: int, d: int)
    ensures IsInt(x) ==> Int(Wrap(x)) == x
    ensures x == 0x8000_0000 ==> Int(Wrap(x)) == -0x8000_0000
  {}

  lemma {:induction false} WrapSame(x: int)
    requires IsUnsigned(x)
    ensures Wrap(x) == x
  {}

  lemma {:induction false} DivMod(m: nat, e: nat)
    requires e > 0
    ensures m == (m / e) * e + m % e && m % e < e
  {}

  lemma {:induction false} WordsDivide(n: Word, d: Word)
    requires d > 0
    ensures Wrap(n / d) == n / d && Wrap(n % d) == n % d && n == (n / d) * d + n % d
  {
    QuotientSmall(n, d);
    DivMod(n, d);
    WrapSame(n / d);
    WrapSame(n % d);
  }

  lemma {:induction false} UnsignedDivision(i: Instr, o: Operands)
    requires i.op == DIVU
    ensures Plan(i, o).Compute?
    ensures var a := Plan(i, o);
      if o.rt == 0 then a.hi == 0 && a.lo == 0 else o.rs == a.lo * o.rt + a.hi && a.hi < o.rt
  {
    if o.rt != 0 {
      WordsDivide(o.rs, o.rt);
    }
  }

  // ---- logic and shifts, bit by bit ----

  /** Bit `k` of a number. */
  predicate BitOf(w: nat, k: nat)
    decreases k
  {
    if k == 0 then w % 2 == 1 else BitOf(w / 2, k - 1)
  }

  lemma {:induction false} BitwiseAt(g: Gate, a: nat, b: nat, n: nat, k: nat)
    requires k < n
    ensures g == AndGate ==> (BitOf(Bitwise(g, a, b, n), k) <==> BitOf(a, k) && BitOf(b, k))
    ensures g == OrGate ==> (BitOf(Bitwise(g, a, b, n), k) <==> BitOf(a, k) || BitOf(b, k))
    ensures g == XorGate ==> (BitOf(Bitwise(g, a, b, n), k) <==> BitOf(a, k) != BitOf(b, k))
  {
    var r, low := Bitwise(g, a, b, n), Through(g, a % 2, b % 2);
    assert r % 2 == low && r / 2 == Bitwise(g, a / 2, b / 2, n - 1);
    if k > 0 {
      BitwiseAt(g, a / 2, b / 2, n - 1, k - 1);
    }
  }

  lemma {:induction false} ComplementAt(w: nat, n: nat, k: nat)
    requires w < TwoTo(n) && k < n
    ensures BitOf(TwoTo(n) - 1 - w, k) <==> !BitOf(w, k)
  {
    var c := TwoTo(n) - 1 - w;
    assert c % 2 == 1 - w % 2 && c / 2 == TwoTo(n - 1) - 1 - w / 2;
    if k > 0 {
      ComplementAt(w / 2, n - 1, k - 1);
    }
  }

  /** OR combines rs with itself, and so is a move. */
  lemma {:induction false} OrSame(a: nat, n: nat)
    requires a < TwoTo(n)
    ensures Bitwise(OrGate, a, a, n) == a
  {
    if n > 0 {
      OrSame(a / 2, n - 1);
    }
  }

  lemma {:induction false} AndAt(a: Word, b: Word, k: nat)
    requires k < 32
    ensures BitOf(AndW(a, b), k) <==> BitOf(a, k) && BitOf(b, k)
  {
    BitwiseAt(AndGate, a, b, 32, k);
  }

  lemma {:induction false} OrAt(a: Word, b: Word, k: nat)
    requires k < 32
    ensures BitOf(OrW(a, b), k) <==> BitOf(a, k) || BitOf(b, k)
  {
    BitwiseAt(OrGate, a, b, 32, k);
  }

  lemma {:induction false} XorAt(a: Word, b: Word, k: nat)
    requires k < 32
    ensures BitOf(XorW(a, b), k) <==> BitOf(a, k) != BitOf(b, k)
  {
    BitwiseAt(XorGate, a, b, 32, k);
  }

  /** The second operand of a logic instruction: a register, or the zero-extended immediate. */
  function Second(i: Instr, o: Operands): Word {
    if i.op in {AND, XOR} then o.rt else i.extra % 0x1_0000
  }

  /** Each bit of the results of logic instructions. */
  lemma {:induction false} AndBits(i: Instr, o: Operands, k: nat) returns (v: Word)
    requires k < 32 && i.op in {AND, ANDI}
    ensures Gives(i, o, v) && (BitOf(v, k) <==> BitOf(o.rs, k) && BitOf(Second(i, o), k))
  {
    v := AndW(o.rs, Second(i, o));
    AndAt(o.rs, Second(i, o), k);
  }

  lemma {:induction false} XorGives(i: Instr, o: Operands)
    requires i.op == XOR
    ensures Gives(i, o, XorW(o.rs, o.rt))
  {}

  lemma {:induction false} XoriGives(i: Instr, o: Operands)
    requires i.op == XORI
    ensures Gives(i, o, XorW(o.rs, i.extra % 0x1_0000))
  {}

  lemma {:induction false} XorBits(i: Instr, o: Operands, k: nat) returns (v: Word)
    requires k < 32 && i.op in {XOR, XORI}
    ensures Gives(i, o, v) && (BitOf(v, k) <==> BitOf(o.rs, k) != BitOf(Second(i, o), k))
  {
    v := XorW(o.rs, Second(i, o));
    if i.op == XOR {
      XorGives(i, o);
    } else {
      XoriGives(i, o);
    }
    XorAt(o.rs, Second(i, o), k);
  }

  lemma {:induction false} OrBits(i: Instr, o: Operands, k: nat) returns (v: Word)
    requires k < 32 && i.op == ORI
    ensures Gives(i, o, v) && (BitOf(v, k) <==> BitOf(o.rs, k) || BitOf(i.extra % 0x1_0000, k))
  {
    v := OrW(o.rs, i.extra % 0x1_0000);
    OrAt(o.rs, i.extra % 0x1_0000, k);
  }

  lemma {:induction false} NorBits(i: Instr, o: Operands, k: nat) returns (v: Word)
    requires k < 32 && i.op == NOR
    ensures Gives(i, o, v) && (BitOf(v, k) <==> !(BitOf(o.rs, k) || BitOf(o.rt, k)))
  {
    v := NotW(OrW(o.rs, o.rt));
    NorAt(o.rs, o.rt, k);
  }

  lemma {:induction false} NorAt(a: Word, b: Word, k: nat)
    requires k < 32
    ensures BitOf(NotW(OrW(a, b)), k) <==> !(BitOf(a, k) || BitOf(b, k))
  {
    WordSize();
    OrAt(a, b, k);
    ComplementAt(OrW(a, b), 32, k);
  }

  /** The OR that the simulator has, not the processor's: it moves rs. */
  lemma {:induction false} OrMoves(i: Instr, o: Operands)
    requires i.op == OR
    ensures Gives(i, o, o.rs)
  {
    WordSize();
    OrSame(o.rs, 32);
  }

  lemma {:induction false} TopBitApart(w: nat, n: nat, k: nat)
    requires k < n
    ensures BitOf(w + TwoTo(n), k) <==> BitOf(w, k)
  {
    assert (w + TwoTo(n)) % 2 == w % 2 && (w + TwoTo(n)) / 2 == w / 2 + TwoTo(n - 1);
    if k > 0 {
      TopBitApart(w / 2, n - 1, k - 1);
    }
  }

  lemma {:induction false} TopBitSet(w: nat, n: nat)
    requires w < TwoTo(n)
    ensures BitOf(w + TwoTo(n), n) && !BitOf(w, n)
  {
    if n > 0 {
      assert (w + TwoTo(n)) / 2 == w / 2 + TwoTo(n - 1);
      TopBitSet(w / 2, n - 1);
    }
  }

  lemma {:induction false} HalfSize()
    ensures TwoTo(31) == 0x8000_0000
  {
    WordSize();
  }

  lemma {:induction false} Doubled(w: Word, k: nat)
    requires k < 32
    ensures BitOf(Wrap(2 * w), k) <==> k > 0 && BitOf(w, k - 1)
  {
    HalfSize();
    if w >= 0x8000_0000 {
      var low: nat := w - 0x8000_0000;
      assert Wrap(2 * w) == 2 * low;
      if k > 0 {
        TopBitApart(low, 31, k - 1);
      }
    } else {
      assert Wrap(2 * w) == 2 * w;
    }
  }

  lemma {:induction false} Halved(w: Word, k: nat)
    requires k < 32
    ensures BitOf(Wrap(Int(w) / 2), k) <==> BitOf(w, if k < 31 then k + 1 else 31)
  {
    HalfSize();
    if w >= 0x8000_0000 {
      var low: nat := w - 0x8000_0000;
      assert Wrap(Int(w) / 2) == w / 2 + 0x8000_0000;
      TopBitSet(low, 31);
      if k < 31 {
        TopBitApart(w / 2, 31, k);
      } else {
        TopBitSet(w / 2, 31);
      }
    } else {
      assert Wrap(Int(w) / 2) == w / 2;
      TopBitSet(w, 31);
      if k == 31 {
        TopBitSet(w / 2, 31);
      }
    }
  }

  lemma {:induction false} ShiftLeftAt(w: Word, n: nat, k: nat)
    requires k < 32
    ensures BitOf(ShiftLeft(w, n), k) <==> k >= n && BitOf(w, k - n)
    decreases n
  {
    if n > 0 {
      ShiftLeftAt(Wrap(2 * w), n - 1, k);
      if k >= n - 1 {
        Doubled(w, k - (n - 1));
      }
    }
  }

  lemma {:induction false} ShiftRightAt(w: Word, n: nat, k: nat)
    requires k < 32
    ensures BitOf(ShiftRight(w, n), k) <==> BitOf(w, if k + n < 32 then k + n else 31)
    decreases n
  {
    if n > 0 {
      ShiftRightAt(Wrap(Int(w) / 2), n - 1, k);
      Halved(w, if k + (n - 1) < 32 then k + (n - 1) else 31);
    }
  }

  /** By how much an instruction shifts. */
  function Amount(i: Instr, o: Operands): nat {
    if i.op in {SLL, SRA, SRL} then i.extra % 32 else o.rs % 32
  }

  /** Each bit of a shift to the left. */
  lemma {:induction false} LeftBits(i: Instr, o: Operands, k: nat) returns (v: Word)
    requires k < 32 && i.op in {SLL, SLLV}
    ensures Gives(i, o, v) && (BitOf(v, k) <==> k >= Amount(i, o) && BitOf(o.rt, k - Amount(i, o)))
  {
    v := ShiftLeft(o.rt, Amount(i, o));
    ShiftLeftAt(o.rt, Amount(i, o), k);
  }

  lemma {:induction false} RightGives(i: Instr, o: Operands)
    requires i.op in {SRA, SRAV, SRL, SRLV}
    ensures Gives(i, o, ShiftRight(o.rt, Amount(i, o)))
  {}

  /** Each bit of a shift to the right: the sign is copied, by the logical shifts too. */
  lemma {:induction false} RightBits(i: Instr, o: Operands, k: nat) returns (v: Word)
    requires k < 32 && i.op in {SRA, SRAV, SRL, SRLV}
    ensures Gives(i, o, v) && (BitOf(v, k) <==> BitOf(o.rt, if k + Amount(i, o) < 32 then k + Amount(i, o) else 31))
  {
    v := ShiftRight(o.rt, Amount(i, o));
    RightGives(i, o);
    ShiftRightAt(o.rt, Amount(i, o), k);
  }

  /** LUI sets the upper half, and clears the lower. */
  lemma {:induction false} UpperImmediate(i: Instr, o: Operands) returns (v: Word)
    requires i.op == LUI
    ensures Gives(i, o, v) && v / 0x1_0000 == i.extra % 0x1_0000 && v % 0x1_0000 == 0
  {
    v := Plan(i, o).value;
  }

  // ---- branches, jumps and moves ----

  /** Control goes to `target` after the next instruction, with this value for the link register, if any. */
  predicate BranchesTo(i: Instr, o: Operands, target: int) {
    var a := Plan(i, o);
    a.Compute? && a.hi == o.hi && a.lo == o.lo && a.pcAfter == target % 0x1_0000_0000
  }

  /** Of each pair of opposite branches one is taken, and the other goes on: whatever the registers hold. */
  lemma {:induction false} Opposites(i: Instr, j: Instr, o: Operands)
    requires (i.op, j.op) in {(BEQ, BNE), (BLEZ, BGTZ), (BLTZ, BGEZ), (BLTZAL, BGEZAL)}
    requires i == j.(op := i.op)
    ensures var taken, on := o.nextPC + 4 * i.extra, o.nextPC + 4;
      (BranchesTo(i, o, taken) && BranchesTo(j, o, on)) || (BranchesTo(i, o, on) && BranchesTo(j, o, taken))
  {}

  /** And which one: by equality ... */
  lemma {:induction false} TakenIfEqual(i: Instr, o: Operands)
    requires i.op == BEQ
    ensures BranchesTo(i, o, if o.rs == o.rt then o.nextPC + 4 * i.extra else o.nextPC + 4)
  {}

  /** ... or by the sign: as the signed comparison with zero has it. */
  lemma {:induction false} TakenBySign(i: Instr, o: Operands)
    requires i.op in {BLTZ, BGEZ}
    ensures var less := Gives(i.(op := SLT), o.(rt := 0), 1);
      BranchesTo(i, o, if less == (i.op == BLTZ) then o.nextPC + 4 * i.extra else o.nextPC + 4)
  {}

  lemma {:induction false} TakenByOrder(i: Instr, o: Operands)
    requires i.op in {BLEZ, BGTZ}
    ensures var more := Gives(i.(op := SLT), o.(rs := 0, rt := o.rs), 1);
      BranchesTo(i, o, if more == (i.op == BGTZ) then o.nextPC + 4 * i.extra else o.nextPC + 4)
  {}

  /** A jump stays in the region of the instruction after the next, at the word that it names. */
  lemma {:induction false} Jumps(i: Instr, o: Operands)
    requires i.op == J || i.op == JAL
    ensures Plan(i, o).Compute?
    ensures var target := Plan(i, o).pcAfter; var after := (o.nextPC + 4) % 0x1_0000_0000;
      target / 0x1000_0000 == after / 0x1000_0000 && target % 0x1000_0000 == 4 * (i.extra % 0x400_0000) && BranchesTo(i, o, target)
  {
    var region, offset := Wrap(o.nextPC + 4) / 0x1000_0000, i.extra % 0x400_0000 * 4;
    WrapSame(region * 0x1000_0000 + offset);
    At28(region, offset);
  }

  lemma {:induction false} At28(hi: int, lo: int)
    requires 0 <= lo < 0x1000_0000
    ensures (hi * 0x1000_0000 + lo) / 0x1000_0000 == hi && (hi * 0x1000_0000 + lo) % 0x1000_0000 == lo
  {}

  /** A linking jump or branch leaves the address of the instruction after the next, and JR goes there. */
  lemma {:induction false} CallReturns(i: Instr, j: Instr, o: Operands, later: Operands)
    requires i.op in {JAL, JALR, BLTZAL, BGEZAL} && j.op == JR
    requires Plan(i, o).Compute? && later.rs == Plan(i, o).value
    ensures BranchesTo(j, later, o.nextPC + 4)
  {}

  lemma {:induction false} JumpsToRegister(i: Instr, o: Operands)
    requires i.op == JALR && i.rs != i.rd
    ensures BranchesTo(i, o, o.rs)
  {
    WrapSame(o.rs);
  }

  /** What is moved to Hi or Lo is what is moved from there, and the other stays. */
  lemma {:induction false} Moves(to: Instr, from: Instr, o: Operands)
    requires (to.op, from.op) in {(MTHI, MFHI), (MTLO, MFLO)}
    ensures Plan(to, o).Compute? && Plan(to, o).pcAfter == (o.nextPC + 4) % 0x1_0000_0000
    ensures var a := Plan(to, o);
      && Gives(from, o.(hi := a.hi, lo := a.lo), o.rs)
      && (to.op == MTHI ==> a.lo == o.lo) && (to.op == MTLO ==> a.hi == o.hi)
  {}

  /** System calls and what is no instruction trap. */
  lemma {:induction false} SyscallTraps(i: Instr, o: Operands)
    ensures i.op == SYSCALL ==> Plan(i, o) == Raise(Syscall, 0)
    ensures OneReserved(i.op) ==> Plan(i, o) == Raise(IllegalInstr, 0)
  {}

  /** No other instruction traps so: what else is raised is overflow or a misaligned address. */
  lemma {:induction false} OthersGoOn(i: Instr, o: Operands)
    requires i.op != SYSCALL && !OneReserved(i.op) && Plan(i, o).Raise?
    ensures Plan(i, o).why == Overflow || Plan(i, o).why == Misaligned
  {
    match i.op
    case ADD => case ADDI => case ADDIU => case ADDU => case AND => case ANDI => case BEQ => case BGEZ =>
    case BGEZAL => case BGTZ => case BLEZ => case BLTZ => case BLTZAL => case BNE => case DIV => case DIVU =>
    case J => case JAL => case JALR => case JR => case LB => case LBU => case LH => case LHU => case LUI =>
    case LW => case LWL => case LWR => case MFHI => case MFLO => case MTHI => case MTLO => case MULT =>
    case MULTU => case NOR => case OR => case ORI => case SB => case SH => case SLL => case SLLV => case SLT =>
    case SLTI => case SLTIU => case SLTU => case SRA => case SRAV => case SRL => case SRLV => case SUB =>
    case SUBU => case SW => case SWL => case SWR => case XOR => case XORI =>
   
  }

  // ---- operands and results ----

  /** The operand registers as they are, whether or not the instruction reads them. */
  function Registers(i: Instr, r: Regs): Operands {
    Operands(r[i.rs], r[i.rt], r[HiReg], r[LoReg], r[NextPCReg])
  }

  /** The instructions of arithmetic and logic, shifts and moves, which give one result. */
  predicate HasResult(op: Op) {
    if Major(op) == 0 then op !in {JR, JALR, SYSCALL, MTHI, MTLO, MULT, MULTU, DIV, DIVU, UNIMP, RES} else 8 <= Major(op) <= 15
  }

  /** Register instructions have their result in rd, immediate ones in rt, and linking ones their link in r31 or rd. */
  lemma {:induction false} Targets(i: Instr)
    ensures HasResult(i.op) ==> Dest(i) == Some(if Major(i.op) == 0 then i.rd else i.rt)
    ensures i.op == JALR ==> Dest(i) == Some(i.rd)
    ensures i.op in {JAL, BLTZAL, BGEZAL} ==> Dest(i) == Some(31)
    ensures !HasResult(i.op) && i.op !in {JAL, JALR, BLTZAL, BGEZAL} ==> Dest(i) == None
  {}

  lemma {:induction false} IgnoresRs(i: Instr, o: Operands, x: Word)
    requires !ReadsRs(i)
    ensures Plan(i, o.(rs := x)) == Plan(i, o)
  {}

  lemma {:induction false} IgnoresRt(i: Instr, o: Operands, x: Word)
    requires !ReadsRt(i)
    ensures Plan(i, o.(rt := x)) == Plan(i, o)
  {
    match i.op
    case ADDI => case ADDIU => case ANDI => case BGEZ => case BGEZAL => case BGTZ => case BLEZ => case BLTZ =>
    case BLTZAL => case J => case JAL => case JALR => case JR => case LB => case LBU => case LH => case LHU =>
    case LUI => case LW => case LWL => case LWR => case MFHI => case MFLO => case MTHI => case MTLO =>
    case OR => case ORI => case SLTI => case SLTIU => case XORI => case SYSCALL => case UNIMP => case RES =>
  }

  /** An instruction reads every register that its plan depends on. */
  lemma {:induction false} ReadsEnough(i: Instr, r: Regs)
    ensures Plan(i, Inputs(R2000(), i, r)) == Plan(i, Registers(i, r))
  {
    var o := Registers(i, r);
    var o1 := if ReadsRs(i) then o else o.(rs := 0);
    if !ReadsRs(i) {
      IgnoresRs(i, o, 0);
    }
    if !ReadsRt(i) {
      IgnoresRt(i, o1, 0);
    }
    assert Inputs(R2000(), i, r) == if ReadsRt(i) then o1 else o1.(rt := 0);
  }
}
