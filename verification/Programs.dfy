/**
 * What programs do on the simulated processor, said of the registers and of the bytes that programs see: where
 * control goes, which registers a step changes, what loads bring and stores leave.
 */
module Programs {
  import opened Bytes
  import opened Options
  import opened Paging
  import opened Views
  import opened MemoryRuns
  import opened Instructions
  import opened Mips
  import opened MipsLaws

  // ---- one step ----

  /** The instruction at the program counter, and what it is to do. */
  function Planned(isa: Isa, r: Regs, vm: Vm): Action
    requires Inv(vm) && Check(vm, r[PCReg], 4, false) == NoException
  {
    isa.plan(Fetched(isa, r, vm), Inputs(isa, Fetched(isa, r, vm), r))
  }

  lemma {:induction false} CompletedCounters(r: Regs, nextReg: Word, nextValue: Word, pcAfter: Word)
    requires r[LoadReg] < NUM_GP_REGS
    ensures var r' := Completed(r, nextReg, nextValue, pcAfter);
      && r'[PrevPCReg] == r[PCReg] && r'[PCReg] == r[NextPCReg] && r'[NextPCReg] == pcAfter
      && r'[LoadReg] == nextReg && r'[LoadValueReg] == nextValue && r'[HiReg] == r[HiReg] && r'[LoReg] == r[LoReg]
  {}

  lemma {:induction false} CompletedGeneral(r: Regs, nextReg: Word, nextValue: Word, pcAfter: Word, k: Reg)
    requires r[LoadReg] < NUM_GP_REGS
    ensures Completed(r, nextReg, nextValue, pcAfter)[k] == if k == 0 then 0 else if k == r[LoadReg] then r[LoadValueReg] else r[k]
  {}

  lemma {:induction false} RaisedRegisters(r: Regs, bad: Word, k: int)
    requires Ready(r) && 0 <= k < NUM_TOTAL_REGS
    ensures Raised(r, bad)[k] ==
      if k == 0 || k == LoadReg || k == LoadValueReg then 0 else if k == r[LoadReg] then r[LoadValueReg]
      else if k == BadVAddrReg then bad else r[k]
  {}

  /** The registers after an action that went through: control, Hi and Lo, the pending load. */
  predicate Went(isa: Isa, i: Instr, r: Regs, a: Action, r': Regs) {
    var next: int := r[NextPCReg];
    && r'[PrevPCReg] == r[PCReg] && r'[PCReg] == r[NextPCReg]
    && (a.Compute? ==> r'[NextPCReg] == a.pcAfter) && (!a.Compute? ==> r'[NextPCReg] == (next + 4) % 0x1_0000_0000)
    && r'[HiReg] == (if a.Compute? then a.hi else r[HiReg]) && r'[LoReg] == (if a.Compute? then a.lo else r[LoReg])
    && (!a.Load? ==> r'[LoadReg] == 0 && r'[LoadValueReg] == 0) && (a.Load? ==> r'[LoadReg] == i.rt)
  }

  /** And the general registers: the pending load is done, over a result for the same register, and r0 stays zero. */
  predicate Changes(isa: Isa, i: Instr, r: Regs, a: Action, r': Regs, k: Reg) {
    r'[k] ==
      if k == 0 then 0
      else if k == r[LoadReg] then r[LoadValueReg]
      else if a.Compute? && isa.dest(i) == Some(k) then a.value
      else r[k]
  }

  lemma {:induction false} StoreWent(isa: Isa, i: Instr, r: Regs, vm: Vm, addr: Word, size: int, value: Word, a: Action, k: Reg)
    requires Ready(r) && Inv(vm) && IsSize(size) && !a.Compute? && !a.Load? && DoStore(r, vm, addr, size, value).Finished?
    ensures var x := DoStore(r, vm, addr, size, value); Went(isa, i, r, a, x.regs) && Changes(isa, i, r, a, x.regs, k)
  {
    CompletedCounters(r, 0, 0, Next4(r));
    CompletedGeneral(r, 0, 0, Next4(r), k);
  }

  lemma {:induction false} ComputeWent(isa: Isa, i: Instr, r: Regs, vm: Vm, a: Action, k: Reg)
    requires Ready(r) && Inv(vm) && a.Compute?
    ensures var x := Act(isa, i, r, vm, a); x.Finished? && Went(isa, i, r, a, x.regs) && Changes(isa, i, r, a, x.regs, k)
  {
    var w := WriteReg(r[HiReg := a.hi][LoReg := a.lo], isa.dest(i), a.value);
    CompletedCounters(w, 0, 0, a.pcAfter);
    CompletedGeneral(w, 0, 0, a.pcAfter, k);
  }

  lemma {:induction false} LoadWent(isa: Isa, i: Instr, r: Regs, vm: Vm, a: Action, k: Reg)
    requires Ready(r) && Inv(vm) && a.Load? && Act(isa, i, r, vm, a).Finished?
    ensures var x := Act(isa, i, r, vm, a);
      && Went(isa, i, r, a, x.regs) && Changes(isa, i, r, a, x.regs, k)
      && IsSize(a.size) && Check(vm, a.addr, a.size, false) == NoException
      && x.regs[LoadValueReg] == Extended(a.extend, ReadValue(vm, a.addr, a.size), Old(isa, i, r))
  {
    var v := Extended(a.extend, ReadValue(vm, a.addr, a.size), Old(isa, i, r));
    CompletedCounters(r, i.rt, v, Next4(r));
    CompletedGeneral(r, i.rt, v, Next4(r), k);
  }

  lemma {:induction false} ActWent(isa: Isa, i: Instr, r: Regs, vm: Vm, a: Action, k: Reg)
    requires Ready(r) && Inv(vm) && Act(isa, i, r, vm, a).Finished?
    ensures Went(isa, i, r, a, Act(isa, i, r, vm, a).regs) && Changes(isa, i, r, a, Act(isa, i, r, vm, a).regs, k)
  {
    match a
    case Compute(_, _, _, _) => ComputeWent(isa, i, r, vm, a, k);
    case Load(_, _, _) => LoadWent(isa, i, r, vm, a, k);
    case Store(addr, size, value) => StoreWent(isa, i, r, vm, addr, size, value, a, k);
    case Modify(addr, left, value) =>
      TouchedKeeps(vm, addr, false);
      StoreWent(isa, i, r, Touched(vm, addr, false), addr, 4, Modified(left, value, ReadValue(vm, addr, 4)), a, k);
  }

  /**
   * Every step that goes through moves control on by one place: what was next is executed next, and what comes
   * after that is four further on, unless the instruction says otherwise.
   */
  lemma {:induction false} StepGoes(isa: Isa, r: Regs, vm: Vm, k: Reg)
    requires Ready(r) && Inv(vm) && OneInstruction(isa, r, vm).Finished?
    ensures Check(vm, r[PCReg], 4, false) == NoException
    ensures var i, a, r' := Fetched(isa, r, vm), Planned(isa, r, vm), OneInstruction(isa, r, vm).regs;
      Went(isa, i, r, a, r') && Changes(isa, i, r, a, r', k)
  {
    TouchedKeeps(vm, r[PCReg], false);
    ActWent(isa, Fetched(isa, r, vm), r, Touched(vm, r[PCReg], false), Planned(isa, r, vm), k);
  }

  /** One that traps stays where it is, does the pending load, and leaves every other register but BadVAddr. */
  lemma {:induction false} StepTraps(isa: Isa, r: Regs, vm: Vm, k: int)
    requires Ready(r) && Inv(vm) && OneInstruction(isa, r, vm).Trapped? && 0 <= k < BadVAddrReg
    ensures OneInstruction(isa, r, vm).regs[k] ==
      if k == 0 || k == LoadReg || k == LoadValueReg then 0 else if k == r[LoadReg] then r[LoadValueReg] else r[k]
  {
    TrapIsRaised(isa, r, vm);
    RaisedRegisters(r, OneInstruction(isa, r, vm).regs[BadVAddrReg], k);
  }

  lemma {:induction false} TrapIsRaised(isa: Isa, r: Regs, vm: Vm)
    requires Ready(r) && Inv(vm) && OneInstruction(isa, r, vm).Trapped?
    ensures OneInstruction(isa, r, vm).regs == Raised(r, OneInstruction(isa, r, vm).regs[BadVAddrReg])
  {}

  /**
   * An instruction's result, as the laws of the instruction set have it for the registers as they are, is in its
   * target register when the step is over, unless a pending load is for the same register.
   */
  lemma {:induction false} ResultArrives(i: Instr, r: Regs, vm: Vm, x: Result, v: Word)
    requires Ready(r) && Inv(vm) && x == OneInstruction(R2000(), r, vm) && x.Finished? && Check(vm, r[PCReg], 4, false) == NoException
    requires i == Fetched(R2000(), r, vm) && HasResult(i.op) && Gives(i, Registers(i, r), v)
    ensures var d := if Major(i.op) == 0 then i.rd else i.rt;
      && (d != 0 && d != r[LoadReg] ==> x.regs[d] == v)
      && x.regs[HiReg] == r[HiReg] && x.regs[LoReg] == r[LoReg]
  {
    var d: Reg := if Major(i.op) == 0 then i.rd else i.rt;
    Targets(i);
    ReadsEnough(i, r);
    PlanOf(i, r, vm);
    StepGoes(R2000(), r, vm, d);
  }

  lemma {:induction false} PlanOf(i: Instr, r: Regs, vm: Vm)
    requires Inv(vm) && Check(vm, r[PCReg], 4, false) == NoException && i == Fetched(R2000(), r, vm)
    ensures Planned(R2000(), r, vm) == Plan(i, Inputs(R2000(), i, r)) && R2000().dest(i) == Dest(i)
  {}

  // ---- straight lines and branches ----

  /** The state after `n` steps, or where they stopped. */
  function Steps(isa: Isa, r: Regs, vm: Vm, n: nat): (x: Result)
    requires Ready(r) && Inv(vm)
    ensures InOrder(x)
  {
    if n == 0 then Finished(r, vm)
    else
      var x := Steps(isa, r, vm, n - 1);
      if x.Finished? then
        BoundaryReady(isa, x.regs, x.vm);
        OneInstruction(isa, x.regs, x.vm)
      else x
  }

  lemma {:induction false} OneMoreStep(isa: Isa, r: Regs, vm: Vm, n: nat)
    requires Ready(r) && Inv(vm) && n > 0 && Steps(isa, r, vm, n).Finished?
    ensures var x := Steps(isa, r, vm, n - 1);
      x.Finished? && Ready(x.regs) && Inv(x.vm) && Steps(isa, r, vm, n) == OneInstruction(isa, x.regs, x.vm)
  {}

  predicate Fetchable(r: Regs, vm: Vm)
    requires Inv(vm)
  {
    Check(vm, r[PCReg], 4, false) == NoException
  }

  /** The instruction at the program counter does not send control anywhere but on. */
  predicate GoesOn(isa: Isa, r: Regs, vm: Vm)
    requires Inv(vm)
  {
    Fetchable(r, vm) &&
      var a := Planned(isa, r, vm);
      var next: int := r[NextPCReg];
      a.Compute? ==> a.pcAfter == (next + 4) % 0x1_0000_0000
  }

  predicate Straight(op: Op) {
    op !in {BEQ, BNE, BLEZ, BGTZ, BLTZ, BGEZ, BLTZAL, BGEZAL, J, JAL, JR, JALR}
  }

  lemma {:induction false} StraightPlans(i: Instr, o: Operands)
    requires Straight(i.op) && Plan(i, o).Compute?
    ensures var next: int := o.nextPC; Plan(i, o).pcAfter == (next + 4) % 0x1_0000_0000
  {}

  /** No instruction does but the branches and jumps. */
  lemma {:induction false} StraightGoesOn(r: Regs, vm: Vm)
    requires Inv(vm) && Fetchable(r, vm) && Straight(Fetched(R2000(), r, vm).op)
    ensures GoesOn(R2000(), r, vm)
  {
    var i := Fetched(R2000(), r, vm);
    var o := Inputs(R2000(), i, r);
    if Plan(i, o).Compute? {
      StraightPlans(i, o);
    }
  }

  /** Each of the first `n` instructions goes through and on. */
  predicate StraightLine(isa: Isa, r: Regs, vm: Vm, n: nat)
    requires Ready(r) && Inv(vm)
  {
    n > 0 ==>
      && StraightLine(isa, r, vm, n - 1) && Steps(isa, r, vm, n).Finished?
      && var x := Steps(isa, r, vm, n - 1); x.Finished? && GoesOn(isa, x.regs, x.vm)
  }

  /** The program is at address `p`, with the next word to follow. */
  predicate IsAt(r: Regs, p: int) {
    r[PCReg] == p % 0x1_0000_0000 && r[NextPCReg] == (p + 4) % 0x1_0000_0000
  }

  lemma {:induction false} StepOn(isa: Isa, r: Regs, vm: Vm, x: Result, p: int, q: int)
    requires Ready(r) && Inv(vm) && x == OneInstruction(isa, r, vm) && x.Finished? && GoesOn(isa, r, vm) && IsAt(r, p) && q == p + 4
    ensures IsAt(x.regs, q)
  {
    StepGoes(isa, r, vm, 0);
    FourMore(q);
  }

  lemma {:induction false} FourMore(p: int)
    ensures (p % 0x1_0000_0000 + 4) % 0x1_0000_0000 == (p + 4) % 0x1_0000_0000
  {}

  /** The `n`-th word from `pc` on. */
  function WordAt(pc: int, n: nat): int {
    pc + 4 * n
  }

  /** `n` instructions in a straight line from `pc` on are the `n` words from there. */
  lemma {:induction false} StraightRun(isa: Isa, r: Regs, vm: Vm, n: nat, pc: int)
    requires Ready(r) && Inv(vm) && StraightLine(isa, r, vm, n) && IsAt(r, pc)
    ensures Steps(isa, r, vm, n).Finished? && IsAt(Steps(isa, r, vm, n).regs, WordAt(pc, n))
  {
    if n > 0 {
      StraightRun(isa, r, vm, n - 1, pc);
      var x := Steps(isa, r, vm, n - 1);
      OneMoreStep(isa, r, vm, n);
      StepOn(isa, x.regs, x.vm, Steps(isa, r, vm, n), WordAt(pc, n - 1), WordAt(pc, n));
    }
  }

  /**
   * A branch or jump takes effect after the instruction in its delay slot: the next step is at the word after
   * it, and the one after that at the target.
   */
  lemma {:induction false} DelaySlot(isa: Isa, r: Regs, vm: Vm, target: Word)
    requires Ready(r) && Inv(vm) && Steps(isa, r, vm, 2).Finished? && Fetchable(r, vm)
    requires Planned(isa, r, vm).Compute? && Planned(isa, r, vm).pcAfter == target
    ensures Steps(isa, r, vm, 1).Finished? && Steps(isa, r, vm, 1).regs[PCReg] == r[NextPCReg]
    ensures Steps(isa, r, vm, 2).regs[PCReg] == target
  {
    OneMoreStep(isa, r, vm, 2);
    OneMoreStep(isa, r, vm, 1);
    FirstStep(isa, r, vm, Steps(isa, r, vm, 1), target);
    SecondStep(isa, Steps(isa, r, vm, 1).regs, Steps(isa, r, vm, 1).vm, Steps(isa, r, vm, 2));
  }

  lemma {:induction false} FirstStep(isa: Isa, r: Regs, vm: Vm, x: Result, target: Word)
    requires Ready(r) && Inv(vm) && x == OneInstruction(isa, r, vm) && x.Finished? && Fetchable(r, vm)
    requires Planned(isa, r, vm).Compute? && Planned(isa, r, vm).pcAfter == target
    ensures x.regs[PCReg] == r[NextPCReg] && x.regs[NextPCReg] == target
  {
    StepGoes(isa, r, vm, 0);
  }

  lemma {:induction false} SecondStep(isa: Isa, r: Regs, vm: Vm, x: Result)
    requires Ready(r) && Inv(vm) && x == OneInstruction(isa, r, vm) && x.Finished?
    ensures x.regs[PCReg] == r[NextPCReg]
  {
    StepGoes(isa, r, vm, 0);
  }

  // ---- loads ----

  /** The address that a load or store names. */
  function Address(i: Instr, r: Regs): Word {
    var base: int := r[i.rs];
    (base + i.extra) % 0x1_0000_0000
  }

  predicate Loads(op: Op) {
    op in {LB, LBU, LH, LHU, LW, LWL, LWR}
  }

  predicate Stores(op: Op) {
    op in {SB, SH, SW, SWL, SWR}
  }

  function SizeOf(op: Op): int {
    if op in {LB, LBU, SB} then 1 else if op in {LH, LHU, SH} then 2 else 4
  }

  /** The number with these digits in base 256. */
  function Number(b0: int, b1: int, b2: int, b3: int): int {
    b0 + 256 * b1 + 0x1_0000 * b2 + 0x100_0000 * b3
  }

  /** What the bytes at the address become in the register, which had `before`. */
  predicate IsLoaded(op: Op, b: seq<Byte>, before: Word, v: Word) {
    match op
    case LB => |b| == 1 && Int(v) == if b[0] < 128 then Number(b[0], 0, 0, 0) else Number(b[0], 0, 0, 0) - 256
    case LBU => |b| == 1 && v == b[0]
    case LH => |b| == 2 && Int(v) == if b[1] < 128 then Number(b[0], b[1], 0, 0) else Number(b[0], b[1], 0, 0) - 0x1_0000
    case LHU => |b| == 2 && v == Number(b[0], b[1], 0, 0)
    case LW => |b| == 4 && v == Number(b[0], b[1], b[2], b[3])
    case LWL => |b| == 4 && v == Number(b[0], b[1], b[2], b[3])
    case LWR => |b| == 4 && v / 256 == before / 256 && v % 256 == b[3]
    case _ => false
  }

  lemma {:induction false} FourBytes(b: seq<Byte>)
    requires |b| == 4
    ensures LittleEndian(b) == Number(b[0], b[1], b[2], b[3]) < 0x1_0000_0000
  {
    LittleEndian2(b);
    LittleEndian2(b[2..]);
  }

  lemma {:induction false} TwoBytes(b: seq<Byte>)
    requires |b| == 2
    ensures LittleEndian(b) == Number(b[0], b[1], 0, 0) < 0x1_0000
  {
    LittleEndian2(b);
  }

  lemma {:induction false} OneByte(b: seq<Byte>)
    requires |b| == 1
    ensures LittleEndian(b) == b[0]
  {}

  lemma {:induction false} LoadedByte(b: seq<Byte>, raw: Word, before: Word)
    requires |b| == 1 && raw == Widened(LittleEndian(b), 1)
    ensures IsLoaded(LB, b, before, Extended(SignByte, raw, 0)) && IsLoaded(LBU, b, before, Extended(ZeroByte, raw, 0))
  {
    OneByte(b);
  }

  lemma {:induction false} LoadedHalf(b: seq<Byte>, raw: Word, before: Word)
    requires |b| == 2 && raw == Widened(LittleEndian(b), 2)
    ensures IsLoaded(LH, b, before, Extended(SignHalf, raw, 0)) && IsLoaded(LHU, b, before, Extended(ZeroHalf, raw, 0))
  {
    TwoBytes(b);
    HalfNumber(b[0], b[1]);
  }

  lemma {:induction false} HalfNumber(b0: Byte, b1: Byte)
    ensures var n := Number(b0, b1, 0, 0); 0 <= n < 0x1_0000 && n % 0x1_0000 == n && (n < 0x8000 <==> b1 < 128)
  {}

  lemma {:induction false} LoadedWord(b: seq<Byte>, raw: Word, before: Word)
    requires |b| == 4 && raw == Widened(LittleEndian(b), 4)
    ensures IsLoaded(LW, b, before, Extended(Whole, raw, 0)) && IsLoaded(LWL, b, before, Extended(Whole, raw, 0))
    ensures IsLoaded(LWR, b, before, Extended(MergeRight, raw, before))
  {
    FourBytes(b);
    TopByte(Number(b[0], b[1], b[2], 0), b[3]);
    Merged(before, b[3]);
  }

  lemma {:induction false} TopByte(low: int, top: int)
    requires 0 <= low < 0x100_0000
    ensures (low + 0x100_0000 * top) / 0x100_0000 == top
  {}

  lemma {:induction false} Merged(before: Word, low: Byte)
    ensures (before / 256 * 256 + low) / 256 == before / 256 && (before / 256 * 256 + low) % 256 == low
  {}

  /** What a load is planned to be. */
  lemma {:induction false} LoadPlan(i: Instr, o: Operands)
    requires Loads(i.op) && Plan(i, o).Load?
    ensures var a := Plan(i, o); var base: int := o.rs;
      && a.addr == (base + i.extra) % 0x1_0000_0000 && a.size == SizeOf(i.op)
      && a.extend == ExtendOf(i.op)
  {}

  function ExtendOf(op: Op): Extend {
    match op
    case LB => SignByte
    case LBU => ZeroByte
    case LH => SignHalf
    case LHU => ZeroHalf
    case LWR => MergeRight
    case _ => Whole
  }

  lemma {:induction false} LoadedAs(op: Op, b: seq<Byte>, raw: Word, before: Word, old': Word)
    requires Loads(op) && |b| == SizeOf(op) && raw == Widened(LittleEndian(b), SizeOf(op)) && (op == LWR ==> old' == before)
    ensures IsLoaded(op, b, before, Extended(ExtendOf(op), raw, old'))
  {
    match op
    case LB => LoadedByte(b, raw, before);
    case LBU => LoadedByte(b, raw, before);
    case LH => LoadedHalf(b, raw, before);
    case LHU => LoadedHalf(b, raw, before);
    case _ => LoadedWord(b, raw, before);
  }

  lemma {:induction false} OldIsBefore(i: Instr, r: Regs)
    requires i.op == LWR
    ensures Old(R2000(), i, r) == Before(i, r)
  {}

  lemma {:induction false} LoadsOnly(i: Instr, o: Operands)
    requires Loads(i.op)
    ensures !Plan(i, o).Compute? && !Plan(i, o).Store? && !Plan(i, o).Modify?
  {}

  lemma {:induction false} SameTranslation(vm: Vm, pc: Word, addr: Word, size: int)
    requires Inv(vm) && Check(vm, pc, 4, false) == NoException && IsSize(size)
    ensures Inv(Touched(vm, pc, false)) && Check(Touched(vm, pc, false), addr, size, false) == Check(vm, addr, size, false)
    ensures Check(vm, addr, size, false) == NoException ==> ReadValue(Touched(vm, pc, false), addr, size) == ReadValue(vm, addr, size)
  {
    TouchedKeeps(vm, pc, false);
    if Check(vm, addr, size, false) == NoException {
      TouchedSame(vm, pc, false);
      ReadSame(vm, Touched(vm, pc, false), addr, size);
    }
  }

  /** The value that a load leaves pending, over what its register is about to have. */
  lemma {:induction false} LoadPends(isa: Isa, i: Instr, r: Regs, vm: Vm, x: Result, a: Action)
    requires Ready(r) && Inv(vm) && x == OneInstruction(isa, r, vm) && x.Finished? && Fetchable(r, vm)
    requires i == Fetched(isa, r, vm) && a == Planned(isa, r, vm) && a.Load?
    ensures IsSize(a.size) && Check(vm, a.addr, a.size, false) == NoException && x.regs[LoadReg] == i.rt
    ensures x.regs[LoadValueReg] == Extended(a.extend, ReadValue(vm, a.addr, a.size), Old(isa, i, r))
  {
    TouchedKeeps(vm, r[PCReg], false);
    LoadWent(isa, i, r, Touched(vm, r[PCReg], false), a, 0);
    SameTranslation(vm, r[PCReg], a.addr, a.size);
  }

  /** Whatever the next instruction is, the pending load has reached its register when it is over. */
  lemma {:induction false} LoadArrives(isa: Isa, r: Regs, vm: Vm, y: Result, k: Reg)
    requires Ready(r) && Inv(vm) && y == OneInstruction(isa, r, vm) && !y.Aborted? && r[LoadReg] == k && k != 0
    ensures y.regs[k] == r[LoadValueReg]
  {
    if y.Finished? {
      StepGoes(isa, r, vm, k);
    } else {
      StepTraps(isa, r, vm, k);
    }
  }

  /** What the register has when the instruction in the load's delay slot is about to run. */
  function Before(i: Instr, r: Regs): Word {
    if r[LoadReg] == i.rt then r[LoadValueReg] else r[i.rt]
  }

  lemma {:induction false} LoadedValue(i: Instr, r: Regs, vm: Vm, a: Action, b: seq<Byte>)
    requires Inv(vm) && Loads(i.op) && a.Load? && a.size == SizeOf(i.op) && a.extend == ExtendOf(i.op)
    requires Check(vm, a.addr, a.size, false) == NoException && b == Visible(vm, vm.current, a.addr, a.size)
    ensures IsLoaded(i.op, b, Before(i, r), Extended(a.extend, ReadValue(vm, a.addr, a.size), Old(R2000(), i, r)))
  {
    ReadBytes(vm, a.addr, a.size);
    if i.op == LWR {
      OldIsBefore(i, r);
    }
    LoadedAs(i.op, b, ReadValue(vm, a.addr, a.size), Before(i, r), Old(R2000(), i, r));
  }

  lemma {:induction false} PlannedLoad(i: Instr, r: Regs, vm: Vm)
    requires Inv(vm) && Fetchable(r, vm) && i == Fetched(R2000(), r, vm) && Loads(i.op) && Planned(R2000(), r, vm).Load?
    ensures var a := Planned(R2000(), r, vm); a.addr == Address(i, r) && a.size == SizeOf(i.op) && a.extend == ExtendOf(i.op)
  {
    PlanOf(i, r, vm);
    LoadPlan(i, Inputs(R2000(), i, r));
    LoadOperand(i, r);
  }

  lemma {:induction false} LoadOperand(i: Instr, r: Regs)
    requires Loads(i.op)
    ensures Inputs(R2000(), i, r).rs == r[i.rs]
  {}

  /**
   * A load, and any instruction after it, even one that traps: the register then has the bytes that the program
   * sees at the address, sign-extended, zero-extended or merged as the load has it.
   */
  lemma {:induction false} LoadsBytes(r: Regs, vm: Vm, x: Result, y: Result)
    requires Ready(r) && Inv(vm) && x == OneInstruction(R2000(), r, vm) && x.Finished? && Fetchable(r, vm)
    requires var i := Fetched(R2000(), r, vm); Loads(i.op) && i.rt != 0
    requires Ready(x.regs) && Inv(x.vm) && y == OneInstruction(R2000(), x.regs, x.vm) && !y.Aborted?
    ensures var i := Fetched(R2000(), r, vm);
      IsLoaded(i.op, Visible(vm, vm.current, Address(i, r), SizeOf(i.op)), Before(i, r), y.regs[i.rt])
  {
    var i, a := Fetched(R2000(), r, vm), Planned(R2000(), r, vm);
    FinishedLoad(i, r, vm, x, a);
    PlannedLoad(i, r, vm);
    LoadPends(R2000(), i, r, vm, x, a);
    LoadedValue(i, r, vm, a, Visible(vm, vm.current, a.addr, a.size));
    LoadArrives(R2000(), x.regs, x.vm, y, i.rt);
  }

  lemma {:induction false} FinishedLoad(i: Instr, r: Regs, vm: Vm, x: Result, a: Action)
    requires Ready(r) && Inv(vm) && x == OneInstruction(R2000(), r, vm) && x.Finished? && Fetchable(r, vm)
    requires i == Fetched(R2000(), r, vm) && a == Planned(R2000(), r, vm) && Loads(i.op)
    ensures a.Load?
  {
    PlanOf(i, r, vm);
    LoadsOnly(i, Inputs(R2000(), i, r));
  }

  // ---- stores ----

  /** Digit `k` of a word in base 256. */
  function DigitAt(w: Word, k: int): int {
    if k == 0 then w % 256 else if k == 1 then w / 256 % 256 else if k == 2 then w / 0x1_0000 % 256 else w / 0x100_0000 % 256
  }

  lemma {:induction false} StorePlan(i: Instr, o: Operands)
    requires i.op in {SB, SH, SW}
    ensures var a := Plan(i, o); var base: int := o.rs;
      a.Store? && a.addr == (base + i.extra) % 0x1_0000_0000 && a.size == SizeOf(i.op) && a.value == o.rt
  {
    match i.op
    case SB =>
    case SH =>
    case SW =>
  }

  lemma {:induction false} PartPlan(i: Instr, o: Operands)
    requires i.op in {SWL, SWR}
    ensures var a := Plan(i, o); var base: int := o.rs;
      a == Abort || (a.Modify? && a.addr == (base + i.extra) % 0x1_0000_0000 && a.left == (i.op == SWL) && a.value == o.rt)
  {}

  /** What a write changes of what programs see. */
  lemma {:induction false} WriteShows(vm: Vm, addr: Word, size: int, value: Word, id: Pid, a: int)
    requires Inv(vm) && IsSize(size) && Check(vm, addr, size, true) == NoException && Mapped(vm, id, a)
    ensures var vm' := Written(vm, addr, size, value);
      && Inv(vm') && Mapped(vm', id, a)
      && At(vm', id, a) == if id == vm.current && addr <= a < addr + size then DigitAt(value, a - addr) else At(vm, id, a)
  {
    WrittenView(vm, addr, size, value, id, a);
    EncodedBytes(value, size);
  }

  lemma {:induction false} ActIs(isa: Isa, i: Instr, r: Regs, vm: Vm, x: Result, a: Action)
    requires Ready(r) && Inv(vm) && x == OneInstruction(isa, r, vm) && Fetchable(r, vm)
    requires i == Fetched(isa, r, vm) && a == Planned(isa, r, vm)
    ensures Inv(Touched(vm, r[PCReg], false)) && x == Act(isa, i, r, Touched(vm, r[PCReg], false), a)
  {
    TouchedKeeps(vm, r[PCReg], false);
  }

  lemma {:induction false} ActStore(isa: Isa, i: Instr, r: Regs, vm: Vm, a: Action)
    requires Ready(r) && Inv(vm) && a.Store? && IsSize(a.size)
    ensures Act(isa, i, r, vm, a) == DoStore(r, vm, a.addr, a.size, a.value)
  {}

  lemma {:induction false} ActModify(isa: Isa, i: Instr, r: Regs, vm: Vm, a: Action)
    requires Ready(r) && Inv(vm) && a.Modify?
    ensures Act(isa, i, r, vm, a) == DoModify(r, vm, a.addr, a.left, a.value)
  {}

  lemma {:induction false} PlannedStore(i: Instr, r: Regs, vm: Vm, a: Action)
    requires Inv(vm) && Fetchable(r, vm) && i == Fetched(R2000(), r, vm) && i.op in {SB, SH, SW} && a == Planned(R2000(), r, vm)
    ensures a.Store? && a.addr == Address(i, r) && a.size == SizeOf(i.op) && a.value == r[i.rt]
  {
    PlanOf(i, r, vm);
    StorePlan(i, Inputs(R2000(), i, r));
    StoreOperands(i, r);
  }

  lemma {:induction false} PlannedPart(i: Instr, r: Regs, vm: Vm, a: Action)
    requires Inv(vm) && Fetchable(r, vm) && i == Fetched(R2000(), r, vm) && i.op in {SWL, SWR} && a == Planned(R2000(), r, vm)
    ensures a == Abort || (a.Modify? && a.addr == Address(i, r) && a.left == (i.op == SWL) && a.value == r[i.rt])
  {
    PlanOf(i, r, vm);
    PartPlan(i, Inputs(R2000(), i, r));
    StoreOperands(i, r);
  }

  lemma {:induction false} StoreOperands(i: Instr, r: Regs)
    requires Stores(i.op)
    ensures Inputs(R2000(), i, r).rs == r[i.rs] && Inputs(R2000(), i, r).rt == r[i.rt]
  {}

  lemma {:induction false} StoreIs(i: Instr, r: Regs, vm: Vm, x: Result)
    requires Ready(r) && Inv(vm) && x == OneInstruction(R2000(), r, vm) && Fetchable(r, vm)
    requires i == Fetched(R2000(), r, vm) && i.op in {SB, SH, SW}
    ensures Inv(Touched(vm, r[PCReg], false)) && x == DoStore(r, Touched(vm, r[PCReg], false), Address(i, r), SizeOf(i.op), r[i.rt])
  {
    var a := Planned(R2000(), r, vm);
    PlannedStore(i, r, vm, a);
    ActIs(R2000(), i, r, vm, x, a);
    ActStore(R2000(), i, r, Touched(vm, r[PCReg], false), a);
  }

  /** SB, SH and SW store the low digits of a register, the least significant first, and change no other byte. */
  lemma {:induction false} StoresBytes(i: Instr, r: Regs, vm: Vm, x: Result, id: Pid, a: int)
    requires Ready(r) && Inv(vm) && x == OneInstruction(R2000(), r, vm) && x.Finished? && Fetchable(r, vm)
    requires i == Fetched(R2000(), r, vm) && i.op in {SB, SH, SW} && Mapped(vm, id, a)
    ensures Inv(x.vm) && Mapped(x.vm, id, a)
    ensures var addr := Address(i, r);
      At(x.vm, id, a) == if id == vm.current && addr <= a < addr + SizeOf(i.op) then DigitAt(r[i.rt], a - addr) else At(vm, id, a)
  {
    StoreIs(i, r, vm, x);
    TouchedView(vm, r[PCReg], false, id, a);
    StoredBytes(r, Touched(vm, r[PCReg], false), Address(i, r), SizeOf(i.op), r[i.rt], x, id, a);
  }

  lemma {:induction false} StoredBytes(r: Regs, vm: Vm, addr: Word, size: int, value: Word, x: Result, id: Pid, a: int)
    requires Ready(r) && Inv(vm) && IsSize(size) && x == DoStore(r, vm, addr, size, value) && x.Finished? && Mapped(vm, id, a)
    ensures Inv(x.vm) && Mapped(x.vm, id, a)
    ensures At(x.vm, id, a) == if id == vm.current && addr <= a < addr + size then DigitAt(value, a - addr) else At(vm, id, a)
  {
    StoreFinished(r, vm, addr, size, value, x);
    WriteShows(vm, addr, size, value, id, a);
  }

  lemma {:induction false} StoreFinished(r: Regs, vm: Vm, addr: Word, size: int, value: Word, x: Result)
    requires Ready(r) && Inv(vm) && IsSize(size) && x == DoStore(r, vm, addr, size, value) && x.Finished?
    ensures Check(vm, addr, size, true) == NoException && x.vm == Written(vm, addr, size, value)
  {}

  lemma {:induction false} ModifyFinished(r: Regs, vm: Vm, addr: Word, left: bool, value: Word, x: Result)
    requires Ready(r) && Inv(vm) && x == DoModify(r, vm, addr, left, value) && x.Finished?
    ensures Check(vm, addr, 4, false) == NoException && Inv(Touched(vm, addr, false))
    ensures Check(Touched(vm, addr, false), addr, 4, true) == NoException
    ensures x.vm == Written(Touched(vm, addr, false), addr, 4, Modified(left, value, ReadValue(vm, addr, 4)))
  {
    TouchedKeeps(vm, addr, false);
  }

  /** The word that SWR writes has the register's lowest digit at the top, and else what was there. */
  lemma {:induction false} ModifiedDigits(value: Word, there: Word, k: int)
    requires 0 <= k < 4
    ensures DigitAt(Modified(false, value, there), k) == if k == 3 then value % 256 else DigitAt(there, k)
    ensures Modified(true, value, there) == value
  {
    var low, top: int := there % 0x100_0000, value % 256;
    TopByte(low, top);
    LowDigits(low, top);
    LowDigits(low, there / 0x100_0000);
    assert there == low + 0x100_0000 * (there / 0x100_0000);
  }

  lemma {:induction false} LowDigits(low: int, top: int)
    requires 0 <= low < 0x100_0000
    ensures var w := low + 0x100_0000 * top;
      w % 256 == low % 256 && w / 256 % 256 == low / 256 % 256 && w / 0x1_0000 % 256 == low / 0x1_0000
  {
    var m := low / 256;
    assert low == 256 * m + low % 256;
    SplitAt(256, m + 0x1_0000 * top, low % 256);
    SplitAt(256, m / 256 + 256 * top, m % 256);
    assert m / 256 == low / 0x1_0000;
  }

  lemma {:induction false} SplitAt(d: int, hi: int, lo: int)
    requires d == 256 && 0 <= lo < d
    ensures (d * hi + lo) / 256 == hi && (d * hi + lo) % 256 == lo
  {}

  lemma {:induction false} NumberDigits(b0: Byte, b1: Byte, b2: Byte, b3: Byte, w: Word)
    requires w == Number(b0, b1, b2, b3)
    ensures DigitAt(w, 0) == b0 && DigitAt(w, 1) == b1 && DigitAt(w, 2) == b2 && DigitAt(w, 3) == b3
  {
    SplitAt(256, Number(b1, b2, b3, 0), b0);
    SplitAt(256, Number(b2, b3, 0, 0), b1);
    SplitAt(256, b3, b2);
    assert w / 256 == Number(b1, b2, b3, 0);
    assert w / 0x1_0000 == Number(b2, b3, 0, 0);
    assert w / 0x100_0000 == b3;
  }

  /** The digits of a word read are the bytes that the program sees. */
  lemma {:induction false} ReadDigit(vm: Vm, addr: Word, k: int)
    requires Inv(vm) && Check(vm, addr, 4, false) == NoException && 0 <= k < 4
    ensures DigitAt(ReadValue(vm, addr, 4), k) == ByteAt(vm, vm.current, Place(addr, k))
  {
    ReadBytes(vm, addr, 4);
    var b := Visible(vm, vm.current, addr, 4);
    FourBytes(b);
    NumberDigits(b[0], b[1], b[2], b[3], ReadValue(vm, addr, 4));
    VisibleAt(vm, vm.current, addr, 4, k);
  }

  lemma {:induction false} VisibleAt(vm: Vm, id: Pid, a: int, n: nat, k: int)
    requires Inv(vm) && 0 <= k < n
    ensures Visible(vm, id, a, n)[k] == ByteAt(vm, id, Place(a, k))
  {
    if k < n - 1 {
      VisibleAt(vm, id, a, n - 1, k);
    } else {
      assert Last(a, n) == Place(a, k);
    }
  }

  lemma {:induction false} ModifyIs(i: Instr, r: Regs, vm: Vm, x: Result)
    requires Ready(r) && Inv(vm) && x == OneInstruction(R2000(), r, vm) && x.Finished? && Fetchable(r, vm)
    requires i == Fetched(R2000(), r, vm) && i.op in {SWL, SWR}
    ensures Inv(Touched(vm, r[PCReg], false)) && x == DoModify(r, Touched(vm, r[PCReg], false), Address(i, r), i.op == SWL, r[i.rt])
  {
    var a := Planned(R2000(), r, vm);
    PlannedPart(i, r, vm, a);
    ActIs(R2000(), i, r, vm, x, a);
    if a.Modify? {
      ActModify(R2000(), i, r, Touched(vm, r[PCReg], false), a);
    }
  }

  lemma {:induction false} ModifiedBytes(r: Regs, vm: Vm, addr: Word, left: bool, value: Word, x: Result, id: Pid, a: int)
    requires Ready(r) && Inv(vm) && x == DoModify(r, vm, addr, left, value) && x.Finished? && Mapped(vm, id, a)
    ensures Inv(x.vm) && Mapped(x.vm, id, a)
    ensures At(x.vm, id, a) ==
      if id == vm.current && (if left then addr <= a < addr + 4 else a == addr + 3) then DigitAt(value, if left then a - addr else 0) else At(vm, id, a)
  {
    ModifyFinished(r, vm, addr, left, value, x);
    TouchedView(vm, addr, false, id, a);
    var there := ReadValue(vm, addr, 4);
    WriteShows(Touched(vm, addr, false), addr, 4, Modified(left, value, there), id, a);
    if id == vm.current && addr <= a < addr + 4 {
      ModifiedDigits(value, there, a - addr);
      ReadDigit(vm, addr, a - addr);
    }
  }

  /** An aligned SWL stores the word; SWR stores the register's lowest digit in the word's last byte. */
  lemma {:induction false} StoresParts(i: Instr, r: Regs, vm: Vm, x: Result, id: Pid, a: int)
    requires Ready(r) && Inv(vm) && x == OneInstruction(R2000(), r, vm) && x.Finished? && Fetchable(r, vm)
    requires i == Fetched(R2000(), r, vm) && i.op in {SWL, SWR} && Mapped(vm, id, a)
    ensures Inv(x.vm) && Mapped(x.vm, id, a)
    ensures var addr := Address(i, r);
      At(x.vm, id, a) ==
        if id == vm.current && (if i.op == SWL then addr <= a < addr + 4 else a == addr + 3) then DigitAt(r[i.rt], if i.op == SWL then a - addr else 0)
        else At(vm, id, a)
  {
    ModifyIs(i, r, vm, x);
    TouchedView(vm, r[PCReg], false, id, a);
    ModifiedBytes(r, Touched(vm, r[PCReg], false), Address(i, r), i.op == SWL, r[i.rt], x, id, a);
  }

  // ---- a store and a load ----

  /** A word stored and then loaded from the same address is back in a register after any third instruction. */
  lemma {:induction false} StoreThenLoad(i: Instr, j: Instr, r: Regs, vm: Vm, x: Result, y: Result, z: Result)
    requires Ready(r) && Inv(vm) && x == OneInstruction(R2000(), r, vm) && x.Finished? && Fetchable(r, vm)
    requires i == Fetched(R2000(), r, vm) && i.op == SW
    requires Ready(x.regs) && Inv(x.vm) && y == OneInstruction(R2000(), x.regs, x.vm) && y.Finished? && Fetchable(x.regs, x.vm)
    requires j == Fetched(R2000(), x.regs, x.vm) && j.op == LW && j.rt != 0 && Address(j, x.regs) == Address(i, r)
    requires Ready(y.regs) && Inv(y.vm) && z == OneInstruction(R2000(), y.regs, y.vm) && !z.Aborted?
    ensures z.regs[j.rt] == r[i.rt]
  {
    StoreIs(i, r, vm, x);
    SeenAfterStore(r, Touched(vm, r[PCReg], false), Address(i, r), r[i.rt], x);
    LoadsWord(j, x.regs, x.vm, y, z, r[i.rt]);
  }

  /** The word that the bytes at a load's address stand for is in its register when the next instruction is over. */
  lemma {:induction false} LoadsWord(j: Instr, r: Regs, vm: Vm, y: Result, z: Result, value: Word)
    requires Ready(r) && Inv(vm) && y == OneInstruction(R2000(), r, vm) && y.Finished? && Fetchable(r, vm)
    requires j == Fetched(R2000(), r, vm) && j.op == LW && j.rt != 0
    requires Ready(y.regs) && Inv(y.vm) && z == OneInstruction(R2000(), y.regs, y.vm) && !z.Aborted?
    requires var b := Visible(vm, vm.current, Address(j, r), 4); Number(b[0], b[1], b[2], b[3]) == value
    ensures z.regs[j.rt] == value
  {
    LoadsBytes(r, vm, y, z);
    WordLoaded(Visible(vm, vm.current, Address(j, r), 4), Before(j, r), z.regs[j.rt], value);
  }

  lemma {:induction false} WordLoaded(b: seq<Byte>, before: Word, v: Word, value: Word)
    requires IsLoaded(LW, b, before, v) && |b| == 4 && Number(b[0], b[1], b[2], b[3]) == value
    ensures v == value
  {}

  lemma {:induction false} SeenAfterStore(r: Regs, vm: Vm, addr: Word, value: Word, x: Result)
    requires Ready(r) && Inv(vm) && x == DoStore(r, vm, addr, 4, value) && x.Finished?
    ensures Inv(x.vm) && var b := Visible(x.vm, x.vm.current, addr, 4); Number(b[0], b[1], b[2], b[3]) == value
  {
    StoreFinished(r, vm, addr, 4, value, x);
    WrittenReadable(vm, addr, 4, value);
    WrittenBytes(vm, addr, 4, value);
    FourBytes(Encoded(value, 4));
    EncodedMeaning(value, 4);
  }
}
