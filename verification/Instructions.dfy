/**
 * The MIPS simulator's instruction cycle over paged memory: fetch, decode, execute, delayed load, and the
 * trap that abandons an instruction half way. An instruction set is a parameter: which operands an instruction
 * reads, which register it writes at once, and a fixed function from operands to what it does.
 */
module Instructions {
  import opened Bytes
  import opened Options
  import opened Paging

  type Reg = r: int | 0 <= r < 32

  // The register file: 32 general registers, and eight more.
  const HiReg := 32
  const LoReg := 33
  const PCReg := 34
  const NextPCReg := 35
  const PrevPCReg := 36
  const LoadReg := 37
  const LoadValueReg := 38
  const BadVAddrReg := 39
  const NUM_GP_REGS := 32
  const NUM_TOTAL_REGS := 40

  predicate IsFile(r: seq<Word>) {
    |r| == NUM_TOTAL_REGS
  }

  type Regs = r: seq<Word> | IsFile(r) witness seq(40, i => 0)

  datatype Op =
    | ADD | ADDI | ADDIU | ADDU | AND | ANDI | BEQ | BGEZ | BGEZAL | BGTZ | BLEZ | BLTZ | BLTZAL | BNE
    | DIV | DIVU | J | JAL | JALR | JR | LB | LBU | LH | LHU | LUI | LW | LWL | LWR
    | MFHI | MFLO | MTHI | MTLO | MULT | MULTU | NOR | OR | ORI | SB | SH
    | SLL | SLLV | SLT | SLTI | SLTIU | SLTU | SRA | SRAV | SRL | SRLV | SUB | SUBU
    | SW | SWL | SWR | XOR | XORI | SYSCALL | UNIMP | RES

  datatype Instr = Instr(op: Op, rs: Reg, rt: Reg, rd: Reg, extra: int)

  datatype Operands = Operands(rs: Word, rt: Word, hi: Word, lo: Word, nextPC: Word)

  /** How a loaded value becomes the register's: sign or zero extension, or a merge with the old value. */
  datatype Extend = SignByte | ZeroByte | SignHalf | ZeroHalf | Whole | MergeRight

  /** Exceptions that an instruction raises by itself, and all exceptions. */
  datatype Why = Misaligned | Syscall | Overflow | IllegalInstr

  datatype Cause = Fault(exception: Exception) | Own(why: Why)

  function CauseOf(why: Why): Cause {
    if why == Misaligned then Fault(AddressError) else Own(why)
  }

  datatype Action =
    | Compute(value: Word, hi: Word, lo: Word, pcAfter: Word)
    | Load(addr: Word, size: int, extend: Extend)
    | Store(addr: Word, size: int, value: Word)
    | Modify(addr: Word, left: bool, value: Word)
    | Raise(why: Why, badVAddr: Word)
    | Abort

  datatype Isa = Isa(
    decode: Word -> Instr,
    readsRs: Instr -> bool,
    readsRt: Instr -> bool,
    merges: Instr -> bool,
    dest: Instr -> Option<Reg>,
    plan: (Instr, Operands) -> Action)

  // ---- registers ----

  function WriteReg(r: Regs, d: Option<Reg>, v: Word): Regs {
    if d.None? then r else r[d.value := v]
  }

  /** Apply the delayed load that is pending, and note the next one. */
  function DelayedLoad(r: Regs, nextReg: Word, nextValue: Word): Regs
    requires r[LoadReg] < NUM_TOTAL_REGS
  {
    r[r[LoadReg] := r[LoadValueReg]][LoadReg := nextReg][LoadValueReg := nextValue][0 := 0]
  }

  /** At every instruction boundary: r0 is zero, and the pending load is to a general register. */
  predicate Ready(r: Regs) {
    r[0] == 0 && r[LoadReg] < NUM_GP_REGS
  }

  /** Entering the kernel finishes the pending load first. */
  function Raised(r: Regs, badVAddr: Word): Regs
    requires Ready(r)
  {
    DelayedLoad(r[BadVAddrReg := badVAddr], 0, 0)
  }

  /** The end of an instruction that went through. */
  function Completed(r: Regs, nextReg: Word, nextValue: Word, pcAfter: Word): Regs
    requires r[LoadReg] < NUM_TOTAL_REGS
  {
    var r' := DelayedLoad(r, nextReg, nextValue);
    r'[PrevPCReg := r'[PCReg]][PCReg := r'[NextPCReg]][NextPCReg := pcAfter]
  }

  function Inputs(isa: Isa, i: Instr, r: Regs): Operands {
    Operands(if isa.readsRs(i) then r[i.rs] else 0, if isa.readsRt(i) then r[i.rt] else 0, r[HiReg], r[LoReg], r[NextPCReg])
  }

  /** The value that a merging load merges into: the pending one, if it is for the same register. */
  function Old(isa: Isa, i: Instr, r: Regs): Word {
    if !isa.merges(i) then 0 else if r[LoadReg] == i.rt then r[LoadValueReg] else r[i.rt]
  }

  function Extended(e: Extend, value: Word, before: Word): Word {
    match e
    case SignByte => if value % 256 < 128 then value % 256 else value % 256 + 0xffff_ff00
    case ZeroByte => value % 256
    case SignHalf => if value % 0x1_0000 < 0x8000 then value % 0x1_0000 else value % 0x1_0000 + 0xffff_0000
    case ZeroHalf => value % 0x1_0000
    case Whole => value
    case MergeRight => before / 256 * 256 + value / 0x100_0000
  }

  /** SWL stores the register; SWR puts its low byte on top of what is there. */
  function Modified(left: bool, value: Word, there: Word): Word {
    if left then value else there % 0x100_0000 + value % 256 * 0x100_0000
  }

  // ---- one instruction ----

  datatype Result =
    | Finished(regs: Regs, vm: Vm)
    | Trapped(cause: Cause, regs: Regs, vm: Vm)
    | Aborted

  function Trap(r: Regs, vm: Vm, cause: Cause, badVAddr: Word): Result
    requires Ready(r)
  {
    Trapped(cause, Raised(r, badVAddr), vm)
  }

  /** A memory access that did not translate: a page fault is served before the trap is over. */
  function MemTrap(r: Regs, vm: Vm, addr: Word, size: int, writing: bool): Result
    requires Ready(r) && Inv(vm)
  {
    Trap(r, Served(vm, addr, size, writing), Fault(Check(vm, addr, size, writing)), addr)
  }

  function DoLoad(isa: Isa, i: Instr, r: Regs, vm: Vm, addr: Word, size: int, extend: Extend): Result
    requires Ready(r) && Inv(vm) && IsSize(size)
  {
    if Check(vm, addr, size, false) != NoException then MemTrap(r, vm, addr, size, false)
    else
      Finished(
        Completed(r, i.rt, Extended(extend, ReadValue(vm, addr, size), Old(isa, i, r)), Next4(r)),
        Touched(vm, addr, false))
  }

  function Next4(r: Regs): Word {
    var pc: int := r[NextPCReg];
    (pc + 4) % 0x1_0000_0000
  }

  function DoStore(r: Regs, vm: Vm, addr: Word, size: int, value: Word): Result
    requires Ready(r) && Inv(vm) && IsSize(size)
  {
    if Check(vm, addr, size, true) != NoException then MemTrap(r, vm, addr, size, true)
    else Finished(Completed(r, 0, 0, Next4(r)), Written(vm, addr, size, value))
  }

  function DoModify(r: Regs, vm: Vm, addr: Word, left: bool, value: Word): Result
    requires Ready(r) && Inv(vm)
  {
    if Check(vm, addr, 4, false) != NoException then MemTrap(r, vm, addr, 4, false)
    else
      TouchedKeeps(vm, addr, false);
      DoStore(r, Touched(vm, addr, false), addr, 4, Modified(left, value, ReadValue(vm, addr, 4)))
  }

  function Act(isa: Isa, i: Instr, r: Regs, vm: Vm, action: Action): Result
    requires Ready(r) && Inv(vm)
  {
    match action
    case Compute(value, hi, lo, pcAfter) =>
      Finished(Completed(WriteReg(r[HiReg := hi][LoReg := lo], isa.dest(i), value), 0, 0, pcAfter), vm)
    case Load(addr, size, extend) => if IsSize(size) then DoLoad(isa, i, r, vm, addr, size, extend) else Aborted
    case Store(addr, size, value) => if IsSize(size) then DoStore(r, vm, addr, size, value) else Aborted
    case Modify(addr, left, value) => DoModify(r, vm, addr, left, value)
    case Raise(why, badVAddr) => Trap(r, vm, CauseOf(why), badVAddr)
    case Abort => Aborted
  }

  /** The instruction at the program counter, if it can be fetched. */
  function Fetched(isa: Isa, r: Regs, vm: Vm): Instr
    requires Inv(vm) && Check(vm, r[PCReg], 4, false) == NoException
  {
    isa.decode(ReadValue(vm, r[PCReg], 4))
  }

  function OneInstruction(isa: Isa, r: Regs, vm: Vm): Result
    requires Ready(r) && Inv(vm)
  {
    if Check(vm, r[PCReg], 4, false) != NoException then MemTrap(r, vm, r[PCReg], 4, false)
    else
      TouchedKeeps(vm, r[PCReg], false);
      var i := Fetched(isa, r, vm);
      Act(isa, i, r, Touched(vm, r[PCReg], false), isa.plan(i, Inputs(isa, i, r)))
  }

  // ---- boundaries ----

  /** Whatever happens, the next instruction starts with r0 zero and the machine in order. */
  predicate InOrder(x: Result) {
    match x
    case Finished(r, vm) => Ready(r) && Inv(vm)
    case Trapped(_, r, vm) => Ready(r) && Inv(vm)
    case Aborted => true
  }

  lemma {:induction false} MemTrapReady(r: Regs, vm: Vm, addr: Word, size: int, writing: bool)
    requires Ready(r) && Inv(vm)
    ensures InOrder(MemTrap(r, vm, addr, size, writing))
  {
    ServedKeeps(vm, addr, size, writing);
    RaisedReady(r, addr);
  }

  lemma {:induction false} RaisedReady(r: Regs, badVAddr: Word)
    requires Ready(r)
    ensures Ready(Raised(r, badVAddr))
  {}

  lemma {:induction false} StoreReady(r: Regs, vm: Vm, addr: Word, size: int, value: Word)
    requires Ready(r) && Inv(vm) && IsSize(size)
    ensures InOrder(DoStore(r, vm, addr, size, value))
  {
    MemTrapReady(r, vm, addr, size, true);
    if Check(vm, addr, size, true) == NoException {
      WrittenKeeps(vm, addr, size, value);
    }
  }

  lemma {:induction false} ActReady(isa: Isa, i: Instr, r: Regs, vm: Vm, action: Action)
    requires Ready(r) && Inv(vm)
    ensures InOrder(Act(isa, i, r, vm, action))
  {
    match action
    case Load(addr, size, _) =>
      if IsSize(size) {
        MemTrapReady(r, vm, addr, size, false);
        if Check(vm, addr, size, false) == NoException {
          TouchedKeeps(vm, addr, false);
        }
      }
    case Store(addr, size, value) =>
      if IsSize(size) {
        StoreReady(r, vm, addr, size, value);
      }
    case Modify(addr, left, value) =>
      MemTrapReady(r, vm, addr, 4, false);
      if Check(vm, addr, 4, false) == NoException {
        TouchedKeeps(vm, addr, false);
        StoreReady(r, Touched(vm, addr, false), addr, 4, Modified(left, value, ReadValue(vm, addr, 4)));
      }
    case _ =>
  }

  lemma {:induction false} BoundaryReady(isa: Isa, r: Regs, vm: Vm)
    requires Ready(r) && Inv(vm)
    ensures InOrder(OneInstruction(isa, r, vm))
  {
    if Check(vm, r[PCReg], 4, false) != NoException {
      MemTrapReady(r, vm, r[PCReg], 4, false);
    } else {
      TouchedKeeps(vm, r[PCReg], false);
      var i := Fetched(isa, r, vm);
      ActReady(isa, i, r, Touched(vm, r[PCReg], false), isa.plan(i, Inputs(isa, i, r)));
    }
  }
}
