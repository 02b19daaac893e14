/**
 * Precise restart. A page fault abandons an instruction half way: the pending delayed load is finished, the
 * page is brought in, and the instruction is executed again from its fetch. This module says when that gives
 * what one execution with the pages resident gives, and how many free frames it takes.
 */
module Restart {
  import opened Bytes
  import opened Options
  import opened Paging
  import opened Views
  import opened Instructions
  import opened Commits

  // ---- what a page fault leaves ----

  /** The page was missing. Memory looks the same after; the page is there, in the least free frame, if there is one. */
  predicate FaultLeft(r: Regs, vm: Vm, x: Result, bad: Word)
    requires Ready(r)
  {
    && x.Trapped? && x.regs == Raised(r, bad) && SameView(vm, x.vm)
    && PageOf(bad) < |ValidBits(vm)| && !ValidBits(vm)[PageOf(bad)]
    && var f := FreeFrame(vm.used, 0);
       if f == -1 then x.vm.used == vm.used
       else x.vm.used == vm.used + {f} && ValidBits(x.vm) == ValidBits(vm)[PageOf(bad) := true]
  }

  /** An access has set use and dirty bits at most. */
  predicate Marked(vm0: Vm, vm: Vm) {
    SameView(vm0, vm) && vm.used == vm0.used && ValidBits(vm) == ValidBits(vm0)
  }

  lemma {:induction false} TouchedMarked(vm0: Vm, vm: Vm, addr: Word)
    requires Marked(vm0, vm) && PageOf(addr) < |vm.spaces[vm.current].table|
    ensures Marked(vm0, Touched(vm, addr, false))
  {
    TouchedSame(vm, addr, false);
    TouchedBits(vm, addr, false);
    SameViewVia(vm0, vm, Touched(vm, addr, false));
  }

  lemma {:induction false} MemFault(r: Regs, vm0: Vm, vm: Vm, addr: Word, size: int, writing: bool)
    requires Ready(r) && Marked(vm0, vm) && Check(vm, addr, size, writing) == PageFault
    ensures FaultLeft(r, vm0, MemTrap(r, vm, addr, size, writing), addr)
  {
    ServedSame(vm, addr, size, writing);
    ServedBits(vm, addr, size, writing);
    SameViewVia(vm0, vm, Served(vm, addr, size, writing));
  }

  lemma {:induction false} ModifyFault(r: Regs, vm0: Vm, vm: Vm, addr: Word, left: bool, value: Word)
    requires Ready(r) && Marked(vm0, vm) && IsPageFault(DoModify(r, vm, addr, left, value))
    ensures FaultLeft(r, vm0, DoModify(r, vm, addr, left, value), addr)
  {
    if Check(vm, addr, 4, false) != NoException {
      MemFault(r, vm0, vm, addr, 4, false);
    } else {
      TouchedMarked(vm0, vm, addr);
      MemFault(r, vm0, Touched(vm, addr, false), addr, 4, true);
    }
  }

  /** The one address that an instruction's execution accesses, if any. */
  function DataAddr(a: Action): Option<Word> {
    match a
    case Load(addr, _, _) => Some(addr)
    case Store(addr, _, _) => Some(addr)
    case Modify(addr, _, _) => Some(addr)
    case _ => None
  }

  lemma {:induction false} ActFault(isa: Isa, i: Instr, r: Regs, vm0: Vm, vm: Vm, a: Action)
    requires Ready(r) && Marked(vm0, vm) && IsPageFault(Act(isa, i, r, vm, a))
    ensures DataAddr(a).Some? && FaultLeft(r, vm0, Act(isa, i, r, vm, a), DataAddr(a).value)
  {
    match a
    case Load(addr, size, _) => MemFault(r, vm0, vm, addr, size, false);
    case Store(addr, size, value) => MemFault(r, vm0, vm, addr, size, true);
    case Modify(addr, left, value) => ModifyFault(r, vm0, vm, addr, left, value);
    case _ =>
  }

  /** Whether the page of the program counter is there. */
  predicate Fetches(r: Regs, vm: Vm)
    requires Inv(vm)
  {
    Check(vm, r[PCReg], 4, false) != PageFault
  }

  /** The data address of the instruction at the program counter. */
  function DataOf(isa: Isa, r: Regs, vm: Vm): Option<Word>
    requires Inv(vm)
  {
    if Check(vm, r[PCReg], 4, false) != NoException then None
    else DataAddr(isa.plan(Fetched(isa, r, vm), Inputs(isa, Fetched(isa, r, vm), r)))
  }

  /** A page fault is on the fetch, or on the data address. */
  lemma {:induction false} InstructionFault(isa: Isa, r: Regs, vm: Vm) returns (bad: Word)
    requires Ready(r) && Inv(vm) && IsPageFault(OneInstruction(isa, r, vm))
    ensures FaultLeft(r, vm, OneInstruction(isa, r, vm), bad)
    ensures if Fetches(r, vm) then DataOf(isa, r, vm) == Some(bad) else bad == r[PCReg]
  {
    SameViewSelf(vm);
    if Check(vm, r[PCReg], 4, false) != NoException {
      bad := r[PCReg];
      MemFault(r, vm, vm, bad, 4, false);
    } else {
      var i := Fetched(isa, r, vm);
      var a := isa.plan(i, Inputs(isa, i, r));
      TouchedMarked(vm, vm, r[PCReg]);
      ActFault(isa, i, r, vm, Touched(vm, r[PCReg], false), a);
      bad := DataAddr(a).value;
    }
  }

  /** Any other outcome leaves the valid bits and the frames alone. */
  predicate KeepsPages(vm: Vm, x: Result)
    requires Inv(vm)
  {
    x.Aborted? || (x.vm.current in x.vm.spaces && ValidBits(x.vm) == ValidBits(vm) && x.vm.used == vm.used)
  }

  lemma {:induction false} StoreKeepsPages(r: Regs, vm: Vm, addr: Word, size: int, value: Word)
    requires Ready(r) && Inv(vm) && IsSize(size) && !IsPageFault(DoStore(r, vm, addr, size, value))
    ensures KeepsPages(vm, DoStore(r, vm, addr, size, value))
  {
    if Check(vm, addr, size, true) == NoException {
      WrittenBits(vm, addr, size, value);
    }
  }

  lemma {:induction false} ActKeepsPages(isa: Isa, i: Instr, r: Regs, vm: Vm, a: Action)
    requires Ready(r) && Inv(vm) && !IsPageFault(Act(isa, i, r, vm, a))
    ensures KeepsPages(vm, Act(isa, i, r, vm, a))
  {
    match a
    case Load(addr, size, _) =>
      if IsSize(size) && Check(vm, addr, size, false) == NoException {
        TouchedBits(vm, addr, false);
      }
    case Store(addr, size, value) =>
      if IsSize(size) {
        StoreKeepsPages(r, vm, addr, size, value);
      }
    case Modify(addr, left, value) =>
      if Check(vm, addr, 4, false) == NoException {
        TouchedKeeps(vm, addr, false);
        TouchedBits(vm, addr, false);
        StoreKeepsPages(r, Touched(vm, addr, false), addr, 4, Modified(left, value, ReadValue(vm, addr, 4)));
      }
    case _ =>
  }

  lemma {:induction false} InstructionKeepsPages(isa: Isa, r: Regs, vm: Vm)
    requires Ready(r) && Inv(vm) && !IsPageFault(OneInstruction(isa, r, vm))
    ensures KeepsPages(vm, OneInstruction(isa, r, vm))
  {
    if Check(vm, r[PCReg], 4, false) == NoException {
      TouchedKeeps(vm, r[PCReg], false);
      TouchedBits(vm, r[PCReg], false);
      var i := Fetched(isa, r, vm);
      ActKeepsPages(isa, i, r, Touched(vm, r[PCReg], false), isa.plan(i, Inputs(isa, i, r)));
    }
  }

  // ---- fault, service, and execute again ----

  /** The machine's loop around a faulting instruction: as long as frames are found, execute it again. */
  function Retried(isa: Isa, r: Regs, vm: Vm): Result
    requires Ready(r) && Inv(vm)
    decreases FreeCount(vm.used, 0)
  {
    var x := OneInstruction(isa, r, vm);
    if IsPageFault(x) && x.vm.used != vm.used then
      RetrySmaller(isa, r, vm);
      Retried(isa, x.regs, x.vm)
    else
      x
  }

  lemma {:induction false} RetrySmaller(isa: Isa, r: Regs, vm: Vm)
    requires Ready(r) && Inv(vm)
    requires var x := OneInstruction(isa, r, vm); IsPageFault(x) && x.vm.used != vm.used
    ensures var x := OneInstruction(isa, r, vm);
      Ready(x.regs) && Inv(x.vm) && FreeCount(x.vm.used, 0) == FreeCount(vm.used, 0) - 1
  {
    BoundaryReady(isa, r, vm);
    var bad := InstructionFault(isa, r, vm);
    FreeCountDrops(vm.used, FreeFrame(vm.used, 0), 0);
  }

  /**
   * With a free frame, a page fault on `bad` is served and the loop goes on with `r'` and `vm'`: nothing is
   * pending, memory looks the same, the page is there, and one frame fewer is free.
   */
  predicate Resumes(r: Regs, vm: Vm, bad: Word, r': Regs, vm': Vm)
    requires Ready(r)
  {
    && Settled(r') && SameRegs(Committed(r), r') && (Settled(r) ==> SameRegs(r, r'))
    && SameView(vm, vm') && FreeCount(vm'.used, 0) == FreeCount(vm.used, 0) - 1
    && PageOf(bad) < |ValidBits(vm)| && !ValidBits(vm)[PageOf(bad)] && ValidBits(vm') == ValidBits(vm)[PageOf(bad) := true]
  }

  lemma {:induction false} FaultServed(isa: Isa, r: Regs, vm: Vm) returns (bad: Word, r': Regs, vm': Vm)
    requires Ready(r) && Inv(vm) && FreeCount(vm.used, 0) > 0 && IsPageFault(OneInstruction(isa, r, vm))
    ensures Resumes(r, vm, bad, r', vm') && Retried(isa, r, vm) == Retried(isa, r', vm')
    ensures if Fetches(r, vm) then DataOf(isa, r, vm) == Some(bad) else bad == r[PCReg]
  {
    SomeFree(vm.used, 0);
    bad := InstructionFault(isa, r, vm);
    assert FreeFrame(vm.used, 0) !in vm.used;
    RetrySmaller(isa, r, vm);
    RaisedSettled(r, bad);
    var x := OneInstruction(isa, r, vm);
    r', vm' := x.regs, x.vm;
  }

  lemma {:induction false} NoFaultNoRetry(isa: Isa, r: Regs, vm: Vm)
    requires Ready(r) && Inv(vm) && !IsPageFault(OneInstruction(isa, r, vm))
    ensures Retried(isa, r, vm) == OneInstruction(isa, r, vm)
  {}

  /** A page that is there is not missed. */
  lemma {:induction false} ValidNoFault(vm: Vm, addr: Word, size: int, writing: bool)
    requires Inv(vm) && PageOf(addr) < |ValidBits(vm)|
    ensures ValidBits(vm)[PageOf(addr)] ==> Check(vm, addr, size, writing) != PageFault
  {}

  /**
   * Once the registers have no load pending, the instruction fetched and its data address do not change any
   * more, so that a fault on the data address is the last one.
   */
  lemma {:induction false} DataStays(isa: Isa, r: Regs, vm: Vm, r': Regs, vm': Vm)
    requires Ready(r) && Ready(r') && SameRegs(r, r') && SameView(vm, vm') && Fetches(r, vm) && Fetches(r', vm')
    ensures DataOf(isa, r, vm) == DataOf(isa, r', vm')
  {
    var pc := r[PCReg];
    assert r'[PCReg] == pc;
    CheckSame(vm, vm', pc, 4, false);
    if Check(vm, pc, 4, false) == NoException {
      ReadSame(vm, vm', pc, 4);
      OperandsSame(isa, Fetched(isa, r, vm), r, r');
    }
  }

  /** Nothing is pending, so that another trap changes nothing but the failing address. */
  predicate Settled(r: Regs) {
    Ready(r) && r[LoadReg] == 0 && r[LoadValueReg] == 0
  }

  lemma {:induction false} RaisedSettled(r: Regs, bad: Word)
    requires Ready(r)
    ensures Settled(Raised(r, bad)) && SameRegs(Committed(r), Raised(r, bad)) && (Settled(r) ==> SameRegs(r, Raised(r, bad)))
  {}

  lemma {:induction false} NoFaultAfter(isa: Isa, r: Regs, vm: Vm, bad: Word, r': Regs, vm': Vm)
    requires Settled(r) && Inv(vm) && Resumes(r, vm, bad, r', vm') && Fetches(r, vm) && DataOf(isa, r, vm) == Some(bad)
    ensures !IsPageFault(OneInstruction(isa, r', vm'))
  {
    DataAfter(isa, r, vm, bad, r', vm');
    DataThere(isa, r', vm', bad);
  }

  lemma {:induction false} DataAfter(isa: Isa, r: Regs, vm: Vm, bad: Word, r': Regs, vm': Vm)
    requires Settled(r) && Inv(vm) && Resumes(r, vm, bad, r', vm') && Fetches(r, vm) && DataOf(isa, r, vm) == Some(bad)
    ensures Fetches(r', vm') && DataOf(isa, r', vm') == Some(bad) && PageOf(bad) < |ValidBits(vm')| && ValidBits(vm')[PageOf(bad)]
  {
    StillFetches(r, r', vm, vm', bad);
    DataStays(isa, r, vm, r', vm');
  }

  lemma {:induction false} DataThere(isa: Isa, r: Regs, vm: Vm, addr: Word)
    requires Ready(r) && Inv(vm) && Fetches(r, vm) && DataOf(isa, r, vm) == Some(addr)
    requires PageOf(addr) < |ValidBits(vm)| && ValidBits(vm)[PageOf(addr)]
    ensures !IsPageFault(OneInstruction(isa, r, vm))
  {
    if IsPageFault(OneInstruction(isa, r, vm)) {
      var bad := InstructionFault(isa, r, vm);
    }
  }

  lemma {:induction false} StillFetches(r: Regs, r': Regs, vm: Vm, vm': Vm, bad: Word)
    requires Inv(vm) && Inv(vm') && r'[PCReg] == r[PCReg] && (Fetches(r, vm) || bad == r[PCReg])
    requires PageOf(bad) < |ValidBits(vm)| && ValidBits(vm') == ValidBits(vm)[PageOf(bad) := true]
    ensures Fetches(r', vm')
  {
    var pc := r[PCReg];
    if PageOf(pc) < |ValidBits(vm)| && Aligned(pc, 4) {
      ValidNoFault(vm', pc, 4, false);
    }
  }

  lemma {:induction false} OneFrameSuffices(isa: Isa, r: Regs, vm: Vm)
    requires Settled(r) && Inv(vm) && FreeCount(vm.used, 0) > 0 && Fetches(r, vm)
    ensures !IsPageFault(Retried(isa, r, vm))
  {
    if IsPageFault(OneInstruction(isa, r, vm)) {
      var bad, r', vm' := FaultServed(isa, r, vm);
      NoFaultAfter(isa, r, vm, bad, r', vm');
      NoFaultNoRetry(isa, r', vm');
    } else {
      NoFaultNoRetry(isa, r, vm);
    }
  }

  /**
   * Two free frames are enough for any instruction, whatever is pending: one for the fetch, or for the data as
   * first addressed, and one for the data as addressed with the pending load done.
   */
  lemma {:induction false} TwoFramesSuffice(isa: Isa, r: Regs, vm: Vm)
    requires Ready(r) && Inv(vm) && FreeCount(vm.used, 0) >= 2
    ensures !IsPageFault(Retried(isa, r, vm))
  {
    if IsPageFault(OneInstruction(isa, r, vm)) {
      var bad, r', vm' := FaultServed(isa, r, vm);
      CommittedPC(r);
      StillFetches(r, r', vm, vm', bad);
      OneFrameSuffices(isa, r', vm');
    } else {
      NoFaultNoRetry(isa, r, vm);
    }
  }

  /** In any case, the only way for the loop to end in a page fault is to run out of frames. */
  lemma {:induction false} OnlyOutOfFrames(isa: Isa, r: Regs, vm: Vm)
    requires Ready(r) && Inv(vm) && IsPageFault(Retried(isa, r, vm))
    ensures FreeFrame(Retried(isa, r, vm).vm.used, 0) == -1 && FreeCount(vm.used, 0) < 2
    decreases FreeCount(vm.used, 0)
  {
    if FreeCount(vm.used, 0) >= 2 {
      TwoFramesSuffice(isa, r, vm);
    }
    SomeFree(vm.used, 0);
    if IsPageFault(OneInstruction(isa, r, vm)) && FreeCount(vm.used, 0) > 0 {
      var bad, r', vm' := FaultServed(isa, r, vm);
      OnlyOutOfFrames(isa, r', vm');
    } else {
      var bad := InstructionFault(isa, r, vm);
    }
  }

  lemma {:induction false} CommittedPC(r: Regs)
    requires Ready(r)
    ensures Committed(r)[PCReg] == r[PCReg]
  {}

  // ---- when restart is precise ----

  /** Without a pending load the loop ends as one execution in a memory that looks the same ends. */
  lemma {:induction false} RetriedSettled(isa: Isa, r: Regs, r': Regs, vm: Vm, full: Vm)
    requires Settled(r) && Ready(r') && SameRegs(r, r') && SameView(full, vm)
    requires !IsPageFault(OneInstruction(isa, r, full)) && !IsPageFault(Retried(isa, r', vm))
    ensures Similar(OneInstruction(isa, r, full), Retried(isa, r', vm))
    decreases FreeCount(vm.used, 0)
  {
    if IsPageFault(OneInstruction(isa, r', vm)) {
      FrameWasFree(isa, r', vm);
      var bad, r'', vm' := FaultServed(isa, r', vm);
      SameViewVia(full, vm, vm');
      RetriedSettled(isa, r, r'', vm', full);
    } else {
      NoFaultNoRetry(isa, r', vm);
      InstructionSame(isa, r, r', full, vm);
    }
  }

  lemma {:induction false} FrameWasFree(isa: Isa, r: Regs, vm: Vm)
    requires Ready(r) && Inv(vm) && IsPageFault(OneInstruction(isa, r, vm)) && !IsPageFault(Retried(isa, r, vm))
    ensures FreeCount(vm.used, 0) > 0
  {
    SomeFree(vm.used, 0);
    var bad := InstructionFault(isa, r, vm);
  }

  /**
   * What a page fault does to an instruction, exactly: the loop ends as one execution with all pages resident
   * and the pending load already done.
   */
  lemma {:induction false} FaultCommits(isa: Isa, r: Regs, r': Regs, vm: Vm, full: Vm)
    requires Ready(r) && Ready(r') && SameRegs(r, r') && SameView(full, vm)
    requires IsPageFault(OneInstruction(isa, r', vm)) && !IsPageFault(Retried(isa, r', vm))
    requires !IsPageFault(OneInstruction(isa, Committed(r), full))
    ensures Similar(OneInstruction(isa, Committed(r), full), Retried(isa, r', vm))
  {
    FrameWasFree(isa, r', vm);
    var bad, r'', vm' := FaultServed(isa, r', vm);
    RaisedSettled(r, 0);
    RaisedSame(r, r', 0, 0);
    SameViewVia(full, vm, vm');
    RetriedSettled(isa, Committed(r), r'', vm', full);
  }

  /**
   * So when a fault is taken, restart is precise if and only if the instruction does the same, with all pages
   * resident, before and after the pending load.
   */
  lemma {:induction false} RestartExactly(isa: Isa, r: Regs, vm: Vm, full: Vm)
    requires Ready(r) && SameView(full, vm) && FreeCount(vm.used, 0) >= 2
    requires IsPageFault(OneInstruction(isa, r, vm)) && !IsPageFault(OneInstruction(isa, r, full))
    requires !IsPageFault(OneInstruction(isa, Committed(r), full))
    ensures Similar(OneInstruction(isa, r, full), Retried(isa, r, vm)) <==>
      Similar(OneInstruction(isa, r, full), OneInstruction(isa, Committed(r), full))
  {
    var x, y, z := OneInstruction(isa, r, full), OneInstruction(isa, Committed(r), full), Retried(isa, r, vm);
    TwoFramesSuffice(isa, r, vm);
    FaultCommits(isa, r, r, vm, full);
    if Similar(x, y) {
      SimilarVia(x, y, z);
    }
    if Similar(x, z) {
      SimilarBack(y, z);
      SimilarVia(x, z, y);
    }
  }

  lemma {:induction false} PreciseIfThrough(isa: Isa, r: Regs, r': Regs, vm: Vm, resident: Vm)
    requires Ready(r) && Ready(r') && SameRegs(r, r') && SameView(resident, vm) && !IsPageFault(Retried(isa, r', vm))
    requires !IsPageFault(OneInstruction(isa, r, resident)) && NextTransparent(isa, r, resident)
    ensures Similar(OneInstruction(isa, r, resident), Retried(isa, r', vm))
  {
    if IsPageFault(OneInstruction(isa, r', vm)) {
      InstructionCommits(isa, r, resident);
      FaultCommits(isa, r, r', vm, resident);
      SimilarVia(OneInstruction(isa, r, resident), OneInstruction(isa, Committed(r), resident), Retried(isa, r', vm));
    } else {
      NoFaultNoRetry(isa, r', vm);
      InstructionSame(isa, r, r', resident, vm);
    }
  }

  /**
   * Precise restart. Take page faults on the fetch or on the data, serve them from two free frames, and execute
   * the instruction again until it goes through: if it does not notice the pending load, the registers, but for
   * the failing address, and the memory that programs see are those of one execution with the pages resident.
   */
  lemma {:induction false} PreciseRestart(isa: Isa, r: Regs, vm: Vm, resident: Vm)
    requires Ready(r) && SameView(resident, vm) && FreeCount(vm.used, 0) >= 2
    requires !IsPageFault(OneInstruction(isa, r, resident)) && NextTransparent(isa, r, resident)
    ensures Similar(OneInstruction(isa, r, resident), Retried(isa, r, vm))
  {
    TwoFramesSuffice(isa, r, vm);
    PreciseIfThrough(isa, r, r, vm, resident);
  }

  /**
   * And the condition is needed. When a fault is taken, and the instruction computes in registers, or the
   * pending load does not change what it plans, restart is precise exactly if the instruction is transparent:
   * something that can be read off the instruction and the registers beforehand.
   */
  lemma {:induction false} PreciseExactly(isa: Isa, r: Regs, vm: Vm, resident: Vm)
    requires Ready(r) && SameView(resident, vm) && FreeCount(vm.used, 0) >= 2
    requires IsPageFault(OneInstruction(isa, r, vm)) && OneInstruction(isa, r, resident).Finished?
    requires RegistersDecide(isa, Fetched(isa, r, resident), r)
    ensures Similar(OneInstruction(isa, r, resident), Retried(isa, r, vm)) <==> Transparent(isa, Fetched(isa, r, resident), r)
  {
    CommitsFault(isa, r, resident);
    RestartExactly(isa, r, vm, resident);
    if Transparent(isa, Fetched(isa, r, resident), r) {
      PreciseRestart(isa, r, vm, resident);
    }
    if Similar(OneInstruction(isa, r, resident), Retried(isa, r, vm)) {
      CommitsNeeds(isa, r, resident);
    }
  }

  // ---- whole programs ----

  /** There is a free frame for every page of the running program that is not in memory. */
  predicate Enough(vm: Vm)
    requires vm.current in vm.spaces
  {
    Missing(ValidBits(vm)) <= FreeCount(vm.used, 0)
  }

  /** All its pages are in memory. */
  predicate Resident(vm: Vm)
    requires vm.current in vm.spaces
  {
    Missing(ValidBits(vm)) == 0
  }

  /** Then no execution of it ever ends in a page fault, and frames stay enough. */
  lemma {:induction false} EnoughRetried(isa: Isa, r: Regs, vm: Vm)
    requires Ready(r) && Inv(vm) && Enough(vm)
    ensures var x := Retried(isa, r, vm);
      !IsPageFault(x) && InOrder(x) && (x.Aborted? || Enough(x.vm))
    decreases FreeCount(vm.used, 0)
  {
    if IsPageFault(OneInstruction(isa, r, vm)) {
      SomeMissing(isa, r, vm);
      var bad, r', vm' := FaultServed(isa, r, vm);
      MissingSet(ValidBits(vm), PageOf(bad));
      EnoughRetried(isa, r', vm');
    } else {
      NoFaultNoRetry(isa, r, vm);
      BoundaryReady(isa, r, vm);
      InstructionKeepsPages(isa, r, vm);
    }
  }

  lemma {:induction false} SomeMissing(isa: Isa, r: Regs, vm: Vm)
    requires Ready(r) && Inv(vm) && IsPageFault(OneInstruction(isa, r, vm))
    ensures Missing(ValidBits(vm)) > 0
  {
    var bad := InstructionFault(isa, r, vm);
    MissingSet(ValidBits(vm), PageOf(bad));
  }

  lemma {:induction false} ResidentExecuted(isa: Isa, r: Regs, vm: Vm)
    requires Ready(r) && Inv(vm) && Resident(vm)
    ensures var x := OneInstruction(isa, r, vm);
      !IsPageFault(x) && InOrder(x) && (x.Aborted? || Resident(x.vm))
  {
    if IsPageFault(OneInstruction(isa, r, vm)) {
      SomeMissing(isa, r, vm);
    } else {
      BoundaryReady(isa, r, vm);
      InstructionKeepsPages(isa, r, vm);
    }
  }

  /** A program run with its pages resident, or with frames for those that are not. */
  predicate Provided(x: Result, paged: bool) {
    InOrder(x) && (x.Finished? ==> if paged then Enough(x.vm) else Resident(x.vm))
  }

  /** One instruction more, unless the program has trapped: executed once, or again after page faults. */
  function Step(isa: Isa, x: Result, paged: bool): Result
    requires InOrder(x)
  {
    if !x.Finished? then x else if paged then Retried(isa, x.regs, x.vm) else OneInstruction(isa, x.regs, x.vm)
  }

  lemma {:induction false} StepProvided(isa: Isa, x: Result, paged: bool)
    requires Provided(x, paged)
    ensures Provided(Step(isa, x, paged), paged) && (!IsPageFault(x) ==> !IsPageFault(Step(isa, x, paged)))
  {
    if x.Finished? {
      if paged {
        EnoughRetried(isa, x.regs, x.vm);
      } else {
        ResidentExecuted(isa, x.regs, x.vm);
      }
    }
  }

  /**
   * An interrupt between two instructions finishes the pending load before its handler runs. A second one, or
   * one between two attempts at a faulting instruction, finds nothing pending.
   */
  function Interrupted(x: Result): Result
    requires InOrder(x)
  {
    if x.Finished? then Finished(DelayedLoad(x.regs, 0, 0), x.vm) else x
  }

  lemma {:induction false} InterruptedProvided(x: Result, paged: bool)
    requires Provided(x, paged)
    ensures Provided(Interrupted(x), paged) && IsPageFault(Interrupted(x)) == IsPageFault(x)
  {}

  lemma {:induction false} InterruptedCommits(x: Result)
    requires InOrder(x) && x.Finished?
    ensures Settled(Interrupted(x).regs) && SameRegs(Committed(x.regs), Interrupted(x).regs)
    ensures Settled(x.regs) ==> Interrupted(x) == x
  {
    if Settled(x.regs) {
      var r := x.regs;
      assert DelayedLoad(r, 0, 0) == r;
    }
  }

  /** The state at boundary `n`, when the interrupts there have been handled. */
  function AtBoundary(x: Result, n: nat, interrupts: set<nat>): Result
    requires InOrder(x)
  {
    if n in interrupts then Interrupted(x) else x
  }

  /** The next `n` instructions of a program, up to its first trap, with interrupts at some of the boundaries between them. */
  function Program(isa: Isa, x: Result, n: nat, paged: bool, interrupts: set<nat>): (y: Result)
    requires Provided(x, paged)
    ensures Provided(y, paged)
  {
    if n == 0 then x
    else
      var y := Program(isa, x, n - 1, paged, interrupts);
      InterruptedProvided(y, paged);
      StepProvided(isa, AtBoundary(y, n - 1, interrupts), paged);
      Step(isa, AtBoundary(y, n - 1, interrupts), paged)
  }

  /** With a frame for every missing page, no page fault is ever final. */
  lemma {:induction false} ProgramNoFault(isa: Isa, x: Result, n: nat, paged: bool, interrupts: set<nat>)
    requires Provided(x, paged) && !IsPageFault(x)
    ensures !IsPageFault(Program(isa, x, n, paged, interrupts))
  {
    if n > 0 {
      ProgramNoFault(isa, x, n - 1, paged, interrupts);
      var y := Program(isa, x, n - 1, paged, interrupts);
      InterruptedProvided(y, paged);
      StepProvided(isa, AtBoundary(y, n - 1, interrupts), paged);
    }
  }

  /** None of the next `n` instructions notices a pending load. */
  predicate WellScheduled(isa: Isa, x: Result, n: nat)
    requires Provided(x, false)
  {
    n > 0 ==>
      && WellScheduled(isa, x, n - 1)
      && var y := Program(isa, x, n - 1, false, {});
         y.Finished? ==> NextTransparent(isa, y.regs, y.vm)
  }

  lemma {:induction false} StepUnaware(isa: Isa, x: Result, x': Result)
    requires Provided(x, false) && Provided(x', true) && Similar(x, x')
    requires x.Finished? ==> NextTransparent(isa, x.regs, x.vm)
    ensures Similar(Step(isa, x, false), Step(isa, x', true))
  {
    if x.Finished? {
      ResidentExecuted(isa, x.regs, x.vm);
      EnoughRetried(isa, x'.regs, x'.vm);
      PreciseIfThrough(isa, x.regs, x'.regs, x'.vm, x.vm);
    }
  }

  /** Nor does it matter if an interrupt has come in between. */
  lemma {:induction false} InterruptUnaware(isa: Isa, x: Result, x': Result)
    requires Provided(x, false) && Provided(x', true) && Similar(x, x')
    requires x.Finished? ==> NextTransparent(isa, x.regs, x.vm)
    ensures Provided(Interrupted(x'), true) && Similar(Step(isa, x, false), Step(isa, Interrupted(x'), true))
  {
    InterruptedProvided(x', true);
    if x.Finished? {
      InterruptedCommits(x');
      RaisedSame(x.regs, x'.regs, 0, 0);
      CommittedUnaware(isa, x.regs, x.vm, Interrupted(x').regs, x'.vm);
    }
  }

  lemma {:induction false} CommittedUnaware(isa: Isa, r: Regs, full: Vm, r': Regs, vm: Vm)
    requires Ready(r) && SameView(full, vm) && Resident(full) && Enough(vm) && NextTransparent(isa, r, full)
    requires Ready(r') && SameRegs(Committed(r), r')
    ensures Similar(OneInstruction(isa, r, full), Retried(isa, r', vm))
  {
    ResidentExecuted(isa, r, full);
    ResidentExecuted(isa, Committed(r), full);
    EnoughRetried(isa, r', vm);
    RaisedSettled(r, 0);
    RetriedSettled(isa, Committed(r), r', vm, full);
    InstructionCommits(isa, r, full);
    SimilarVia(OneInstruction(isa, r, full), OneInstruction(isa, Committed(r), full), Retried(isa, r', vm));
  }

  /**
   * Such a program cannot tell demand paging, with interrupts wherever they come, from a memory that holds all
   * of it and no interrupts: with a frame for each of its missing pages, its next `n` instructions end alike,
   * and not in a page fault.
   */
  lemma {:induction false} ProgramUnaware(isa: Isa, x: Result, x': Result, n: nat, interrupts: set<nat>)
    requires Provided(x, false) && Provided(x', true) && Similar(x, x') && !IsPageFault(x') && WellScheduled(isa, x, n)
    ensures Similar(Program(isa, x, n, false, {}), Program(isa, x', n, true, interrupts))
    ensures !IsPageFault(Program(isa, x', n, true, interrupts))
  {
    ProgramNoFault(isa, x', n, true, interrupts);
    if n > 0 {
      ProgramUnaware(isa, x, x', n - 1, interrupts);
      var y, y' := Program(isa, x, n - 1, false, {}), Program(isa, x', n - 1, true, interrupts);
      if n - 1 in interrupts {
        InterruptUnaware(isa, y, y');
      } else {
        StepUnaware(isa, y, y');
      }
    }
  }
}
