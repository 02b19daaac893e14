/**
 * When one execution of an instruction amounts to another: in memories that look alike, and with the pending
 * delayed load done before it or left to its end.
 */
module Commits {
  import opened Bytes
  import opened Options
  import opened Paging
  import opened Views
  import opened Instructions

  /** The same registers, but for the failing address. */
  predicate SameRegs(r: Regs, r': Regs) {
    forall k :: 0 <= k < BadVAddrReg ==> r[k] == r'[k]
  }

  predicate Similar(x: Result, y: Result) {
    match (x, y)
    case (Finished(r, vm), Finished(r', vm')) => SameRegs(r, r') && SameView(vm, vm')
    case (Trapped(c, r, vm), Trapped(c', r', vm')) => c == c' && SameRegs(r, r') && SameView(vm, vm')
    case (Aborted, Aborted) => true
    case _ => false
  }

  predicate IsPageFault(x: Result) {
    x.Trapped? && x.cause == Fault(PageFault)
  }

  lemma {:induction false} SimilarBack(x: Result, y: Result)
    requires Similar(x, y)
    ensures Similar(y, x)
  {
    if !x.Aborted? {
      SameViewBack(x.vm, y.vm);
    }
  }

  lemma {:induction false} SimilarVia(x: Result, y: Result, z: Result)
    requires Similar(x, y) && Similar(y, z)
    ensures Similar(x, z)
  {
    if !x.Aborted? {
      SameViewVia(x.vm, y.vm, z.vm);
    }
  }

  // ---- the same registers and memories that look alike ----

  lemma {:induction false} RaisedSame(r: Regs, r': Regs, a: Word, b: Word)
    requires Ready(r) && Ready(r') && SameRegs(r, r')
    ensures SameRegs(Raised(r, a), Raised(r', b))
  {}

  lemma {:induction false} CompletedSame(r: Regs, r': Regs, nextReg: Word, nextValue: Word, pcAfter: Word)
    requires r[LoadReg] < NUM_GP_REGS && r'[LoadReg] < NUM_GP_REGS && SameRegs(r, r')
    ensures SameRegs(Completed(r, nextReg, nextValue, pcAfter), Completed(r', nextReg, nextValue, pcAfter))
  {}

  lemma {:induction false} OperandsSame(isa: Isa, i: Instr, r: Regs, r': Regs)
    requires SameRegs(r, r')
    ensures Inputs(isa, i, r') == Inputs(isa, i, r) && Old(isa, i, r') == Old(isa, i, r) && Next4(r') == Next4(r)
  {}

  lemma {:induction false} TrapSame(r: Regs, r': Regs, vm: Vm, vm': Vm, cause: Cause, a: Word, b: Word)
    requires Ready(r) && Ready(r') && SameRegs(r, r') && SameView(vm, vm')
    ensures Similar(Trap(r, vm, cause, a), Trap(r', vm', cause, b))
  {
    RaisedSame(r, r', a, b);
  }

  lemma {:induction false} BothServed(vm: Vm, vm': Vm, addr: Word, size: int, writing: bool)
    requires SameView(vm, vm')
    ensures SameView(Served(vm, addr, size, writing), Served(vm', addr, size, writing))
  {
    ServedSame(vm, addr, size, writing);
    ServedSame(vm', addr, size, writing);
    SameViewBack(vm, Served(vm, addr, size, writing));
    SameViewVia(Served(vm, addr, size, writing), vm, vm');
    SameViewVia(Served(vm, addr, size, writing), vm', Served(vm', addr, size, writing));
  }

  lemma {:induction false} BothTouched(vm: Vm, vm': Vm, addr: Word, writing: bool)
    requires SameView(vm, vm') && PageOf(addr) < |vm.spaces[vm.current].table|
    ensures PageOf(addr) < |vm'.spaces[vm'.current].table|
    ensures SameView(Touched(vm, addr, writing), Touched(vm', addr, writing))
  {
    assert SameSpace(vm, vm', vm.current);
    TouchedSame(vm, addr, writing);
    TouchedSame(vm', addr, writing);
    SameViewBack(vm, Touched(vm, addr, writing));
    SameViewVia(Touched(vm, addr, writing), vm, vm');
    SameViewVia(Touched(vm, addr, writing), vm', Touched(vm', addr, writing));
  }

  lemma {:induction false} MemTrapSame(r: Regs, r': Regs, vm: Vm, vm': Vm, addr: Word, size: int, writing: bool)
    requires Ready(r) && Ready(r') && SameRegs(r, r') && SameView(vm, vm')
    requires Check(vm, addr, size, writing) == Check(vm', addr, size, writing)
    ensures Similar(MemTrap(r, vm, addr, size, writing), MemTrap(r', vm', addr, size, writing))
  {
    BothServed(vm, vm', addr, size, writing);
    TrapSame(
      r, r', Served(vm, addr, size, writing), Served(vm', addr, size, writing), Fault(Check(vm, addr, size, writing)), addr, addr);
  }

  lemma {:induction false} StoreSame(r: Regs, r': Regs, vm: Vm, vm': Vm, addr: Word, size: int, value: Word)
    requires Ready(r) && Ready(r') && SameRegs(r, r') && SameView(vm, vm') && IsSize(size)
    requires !IsPageFault(DoStore(r, vm, addr, size, value)) && !IsPageFault(DoStore(r', vm', addr, size, value))
    ensures Similar(DoStore(r, vm, addr, size, value), DoStore(r', vm', addr, size, value))
  {
    CheckSame(vm, vm', addr, size, true);
    if Check(vm, addr, size, true) != NoException {
      MemTrapSame(r, r', vm, vm', addr, size, true);
    } else {
      WrittenSame(vm, vm', addr, size, value);
      CompletedSame(r, r', 0, 0, Next4(r));
    }
  }

  lemma {:induction false} LoadSame(isa: Isa, i: Instr, r: Regs, r': Regs, vm: Vm, vm': Vm, addr: Word, size: int, extend: Extend)
    requires Ready(r) && Ready(r') && SameRegs(r, r') && SameView(vm, vm') && IsSize(size)
    requires !IsPageFault(DoLoad(isa, i, r, vm, addr, size, extend)) && !IsPageFault(DoLoad(isa, i, r', vm', addr, size, extend))
    ensures Similar(DoLoad(isa, i, r, vm, addr, size, extend), DoLoad(isa, i, r', vm', addr, size, extend))
  {
    CheckSame(vm, vm', addr, size, false);
    if Check(vm, addr, size, false) != NoException {
      MemTrapSame(r, r', vm, vm', addr, size, false);
    } else {
      OperandsSame(isa, i, r, r');
      ReadSame(vm, vm', addr, size);
      BothTouched(vm, vm', addr, false);
      CompletedSame(r, r', i.rt, Extended(extend, ReadValue(vm, addr, size), Old(isa, i, r)), Next4(r));
    }
  }

  lemma {:induction false} ModifySame(r: Regs, r': Regs, vm: Vm, vm': Vm, addr: Word, left: bool, value: Word)
    requires Ready(r) && Ready(r') && SameRegs(r, r') && SameView(vm, vm')
    requires !IsPageFault(DoModify(r, vm, addr, left, value)) && !IsPageFault(DoModify(r', vm', addr, left, value))
    ensures Similar(DoModify(r, vm, addr, left, value), DoModify(r', vm', addr, left, value))
  {
    CheckSame(vm, vm', addr, 4, false);
    if Check(vm, addr, 4, false) != NoException {
      MemTrapSame(r, r', vm, vm', addr, 4, false);
    } else {
      ReadSame(vm, vm', addr, 4);
      BothTouched(vm, vm', addr, false);
      StoreSame(r, r', Touched(vm, addr, false), Touched(vm', addr, false), addr, 4, Modified(left, value, ReadValue(vm, addr, 4)));
    }
  }

  lemma {:induction false} ActSame(isa: Isa, i: Instr, r: Regs, r': Regs, vm: Vm, vm': Vm, action: Action)
    requires Ready(r) && Ready(r') && SameRegs(r, r') && SameView(vm, vm')
    requires !IsPageFault(Act(isa, i, r, vm, action)) && !IsPageFault(Act(isa, i, r', vm', action))
    ensures Similar(Act(isa, i, r, vm, action), Act(isa, i, r', vm', action))
  {
    match action
    case Compute(value, hi, lo, pcAfter) =>
      ComputeSame(isa, i, r, r', vm, vm', action);
    case Load(addr, size, extend) =>
      if IsSize(size) {
        LoadSame(isa, i, r, r', vm, vm', addr, size, extend);
      }
    case Store(addr, size, value) =>
      if IsSize(size) {
        StoreSame(r, r', vm, vm', addr, size, value);
      }
    case Modify(addr, left, value) =>
      ModifySame(r, r', vm, vm', addr, left, value);
    case Raise(why, badVAddr) =>
      TrapSame(r, r', vm, vm', CauseOf(why), badVAddr, badVAddr);
    case Abort =>
  }

  lemma {:induction false} ComputeSame(isa: Isa, i: Instr, r: Regs, r': Regs, vm: Vm, vm': Vm, a: Action)
    requires Ready(r) && Ready(r') && SameRegs(r, r') && SameView(vm, vm') && a.Compute?
    ensures Similar(Act(isa, i, r, vm, a), Act(isa, i, r', vm', a))
  {
    var w, w' := WriteReg(r[HiReg := a.hi][LoReg := a.lo], isa.dest(i), a.value), WriteReg(r'[HiReg := a.hi][LoReg := a.lo], isa.dest(i), a.value);
    CompletedSame(w, w', 0, 0, a.pcAfter);
  }

  /** One execution that is not stopped by a page fault does the same in two memories that look alike. */
  lemma {:induction false} InstructionSame(isa: Isa, r: Regs, r': Regs, vm: Vm, vm': Vm)
    requires Ready(r) && Ready(r') && SameRegs(r, r') && SameView(vm, vm')
    requires !IsPageFault(OneInstruction(isa, r, vm)) && !IsPageFault(OneInstruction(isa, r', vm'))
    ensures Similar(OneInstruction(isa, r, vm), OneInstruction(isa, r', vm'))
  {
    var pc := r[PCReg];
    assert r'[PCReg] == pc;
    CheckSame(vm, vm', pc, 4, false);
    if Check(vm, pc, 4, false) != NoException {
      MemTrapSame(r, r', vm, vm', pc, 4, false);
    } else {
      ReadSame(vm, vm', pc, 4);
      BothTouched(vm, vm', pc, false);
      var i := Fetched(isa, r, vm);
      OperandsSame(isa, i, r, r');
      ActSame(isa, i, r, r', Touched(vm, pc, false), Touched(vm', pc, false), isa.plan(i, Inputs(isa, i, r)));
    }
  }

  // ---- the pending load brought forward ----

  /** The registers as a trap leaves them, the failing address aside. */
  function Committed(r: Regs): (r': Regs)
    requires Ready(r)
    ensures Ready(r')
  {
    Raised(r, 0)
  }

  /** What is written to `d` at once, `v` before and `v'` after the pending load, ends up the same. */
  predicate Lands(r: Regs, d: Option<Reg>, v: Word, v': Word) {
    if d.None? || d.value == 0 then true
    else if d.value == r[LoadReg] then v' == r[LoadValueReg]
    else v == v'
  }

  /** A merging load finds the same old value: it always does, but for r0 and a pending load into r0. */
  predicate SameMerge(isa: Isa, i: Instr, r: Regs, extend: Extend) {
    isa.merges(i) && extend == MergeRight && i.rt == 0 && r[LoadReg] == 0 ==> r[LoadValueReg] < 256
  }

  /** Plan `a`, made before the pending load, and plan `a'`, made after it, come to the same. */
  predicate Agree(isa: Isa, i: Instr, r: Regs, a: Action, a': Action) {
    if a.Compute? && a'.Compute? then
      a.hi == a'.hi && a.lo == a'.lo && a.pcAfter == a'.pcAfter && Lands(r, isa.dest(i), a.value, a'.value)
    else
      a == a' && (a.Load? ==> SameMerge(isa, i, r, a.extend))
  }

  /** The instruction does not notice whether the pending load has been done: readable from it and the registers. */
  predicate Transparent(isa: Isa, i: Instr, r: Regs)
    requires Ready(r)
  {
    Agree(isa, i, r, isa.plan(i, Inputs(isa, i, r)), isa.plan(i, Inputs(isa, i, Committed(r))))
  }

  lemma {:induction false} CommittedTwice(r: Regs, a: Word, b: Word)
    requires Ready(r)
    ensures SameRegs(Raised(r, a), Raised(Committed(r), b))
  {}

  lemma {:induction false} ComputeCommits(r: Regs, d: Option<Reg>, a: Action, a': Action)
    requires Ready(r) && a.Compute? && a'.Compute?
    ensures SameRegs(
        Completed(WriteReg(r[HiReg := a.hi][LoReg := a.lo], d, a.value), 0, 0, a.pcAfter),
        Completed(WriteReg(Committed(r)[HiReg := a'.hi][LoReg := a'.lo], d, a'.value), 0, 0, a'.pcAfter))
      <==> a.hi == a'.hi && a.lo == a'.lo && a.pcAfter == a'.pcAfter && Lands(r, d, a.value, a'.value)
  {
    var x := Completed(WriteReg(r[HiReg := a.hi][LoReg := a.lo], d, a.value), 0, 0, a.pcAfter);
    var y := Completed(WriteReg(Committed(r)[HiReg := a'.hi][LoReg := a'.lo], d, a'.value), 0, 0, a'.pcAfter);
    assert x[HiReg] == a.hi && y[HiReg] == a'.hi;
    assert x[LoReg] == a.lo && y[LoReg] == a'.lo;
    assert x[NextPCReg] == a.pcAfter && y[NextPCReg] == a'.pcAfter;
    if d.Some? && d.value != 0 {
      assert y[d.value] == a'.value;
      assert x[d.value] == if d.value == r[LoadReg] then r[LoadValueReg] else a.value;
    }
  }

  lemma {:induction false} LoadedCommits(r: Regs, nextReg: Word, v: Word, v': Word, pcAfter: Word)
    requires Ready(r)
    ensures SameRegs(Completed(r, nextReg, v, pcAfter), Completed(Committed(r), nextReg, v', pcAfter)) <==> v == v'
  {
    var x, y := Completed(r, nextReg, v, pcAfter), Completed(Committed(r), nextReg, v', pcAfter);
    assert x[LoadValueReg] == v && y[LoadValueReg] == v';
  }

  lemma {:induction false} MergeCommits(isa: Isa, i: Instr, r: Regs, extend: Extend, value: Word)
    requires Ready(r)
    ensures Extended(extend, value, Old(isa, i, r)) == Extended(extend, value, Old(isa, i, Committed(r))) <==> SameMerge(isa, i, r, extend)
  {
    var was, now := Old(isa, i, r), Old(isa, i, Committed(r));
    if isa.merges(i) && i.rt == 0 && r[LoadReg] == 0 {
      assert was == r[LoadValueReg] && now == 0;
    } else {
      assert was == now;
    }
  }

  lemma {:induction false} MemTrapCommits(r: Regs, vm: Vm, addr: Word, size: int, writing: bool)
    requires Ready(r) && Inv(vm)
    ensures Similar(MemTrap(r, vm, addr, size, writing), MemTrap(Committed(r), vm, addr, size, writing))
  {
    CommittedTwice(r, addr, addr);
    ServedSame(vm, addr, size, writing);
    SameViewSelf(Served(vm, addr, size, writing));
  }

  lemma {:induction false} LoadGoesCommits(isa: Isa, i: Instr, r: Regs, vm: Vm, addr: Word, size: int, extend: Extend)
    requires Ready(r) && Inv(vm) && IsSize(size) && Check(vm, addr, size, false) == NoException
    ensures Similar(DoLoad(isa, i, r, vm, addr, size, extend), DoLoad(isa, i, Committed(r), vm, addr, size, extend)) <==> SameMerge(isa, i, r, extend)
  {
    TouchedKeeps(vm, addr, false);
    SameViewSelf(Touched(vm, addr, false));
    var value := ReadValue(vm, addr, size);
    MergeCommits(isa, i, r, extend, value);
    LoadedCommits(r, i.rt, Extended(extend, value, Old(isa, i, r)), Extended(extend, value, Old(isa, i, Committed(r))), Next4(r));
  }

  lemma {:induction false} LoadCommits(isa: Isa, i: Instr, r: Regs, vm: Vm, addr: Word, size: int, extend: Extend)
    requires Ready(r) && Inv(vm) && IsSize(size)
    ensures var x, y := DoLoad(isa, i, r, vm, addr, size, extend), DoLoad(isa, i, Committed(r), vm, addr, size, extend);
      (IsPageFault(x) <==> IsPageFault(y)) && (Similar(x, y) <==> x.Trapped? || SameMerge(isa, i, r, extend))
  {
    MemTrapCommits(r, vm, addr, size, false);
    if Check(vm, addr, size, false) == NoException {
      LoadGoesCommits(isa, i, r, vm, addr, size, extend);
    }
  }

  lemma {:induction false} StoreCommits(r: Regs, vm: Vm, addr: Word, size: int, value: Word)
    requires Ready(r) && Inv(vm) && IsSize(size)
    ensures var x, y := DoStore(r, vm, addr, size, value), DoStore(Committed(r), vm, addr, size, value);
      (IsPageFault(x) <==> IsPageFault(y)) && Similar(x, y)
  {
    MemTrapCommits(r, vm, addr, size, true);
    if Check(vm, addr, size, true) == NoException {
      WrittenKeeps(vm, addr, size, value);
      SameViewSelf(Written(vm, addr, size, value));
      LoadedCommits(r, 0, 0, 0, Next4(r));
    }
  }

  lemma {:induction false} ModifyCommits(r: Regs, vm: Vm, addr: Word, left: bool, value: Word)
    requires Ready(r) && Inv(vm)
    ensures var x, y := DoModify(r, vm, addr, left, value), DoModify(Committed(r), vm, addr, left, value);
      (IsPageFault(x) <==> IsPageFault(y)) && Similar(x, y)
  {
    MemTrapCommits(r, vm, addr, 4, false);
    if Check(vm, addr, 4, false) == NoException {
      TouchedKeeps(vm, addr, false);
      StoreCommits(r, Touched(vm, addr, false), addr, 4, Modified(left, value, ReadValue(vm, addr, 4)));
    }
  }

  /** Plans that agree come to the same; and plans that come to the same agree, where registers alone decide. */
  lemma {:induction false} ActCommits(isa: Isa, i: Instr, r: Regs, vm: Vm, a: Action, a': Action)
    requires Ready(r) && Inv(vm) && (a == a' || (a.Compute? && a'.Compute?))
    ensures var x, y := Act(isa, i, r, vm, a), Act(isa, i, Committed(r), vm, a');
      && (IsPageFault(x) <==> IsPageFault(y))
      && (Agree(isa, i, r, a, a') ==> Similar(x, y))
      && (x.Finished? && Similar(x, y) ==> Agree(isa, i, r, a, a'))
  {
    CommittedTwice(r, 0, 0);
    SameViewSelf(vm);
    match a
    case Compute(_, _, _, _) => ComputeCommits(r, isa.dest(i), a, a');
    case Load(addr, size, extend) =>
      if IsSize(size) {
        LoadCommits(isa, i, r, vm, addr, size, extend);
      }
    case Store(addr, size, value) =>
      if IsSize(size) {
        StoreCommits(r, vm, addr, size, value);
      }
    case Modify(addr, left, value) => ModifyCommits(r, vm, addr, left, value);
    case Raise(why, badVAddr) => CommittedTwice(r, badVAddr, badVAddr);
    case Abort =>
  }

  /** The instruction at the program counter, where it can be fetched, does not notice the pending load. */
  predicate NextTransparent(isa: Isa, r: Regs, vm: Vm)
    requires Ready(r) && Inv(vm)
  {
    Check(vm, r[PCReg], 4, false) == NoException ==> Transparent(isa, Fetched(isa, r, vm), r)
  }

  lemma {:induction false} InstructionCommits(isa: Isa, r: Regs, vm: Vm)
    requires Ready(r) && Inv(vm) && NextTransparent(isa, r, vm) && !IsPageFault(OneInstruction(isa, r, vm))
    ensures !IsPageFault(OneInstruction(isa, Committed(r), vm))
    ensures Similar(OneInstruction(isa, r, vm), OneInstruction(isa, Committed(r), vm))
  {
    var pc := r[PCReg];
    MemTrapCommits(r, vm, pc, 4, false);
    assert Committed(r)[PCReg] == pc;
    if Check(vm, pc, 4, false) == NoException {
      TouchedKeeps(vm, pc, false);
      var i := Fetched(isa, r, vm);
      ActCommits(
        isa, i, r, Touched(vm, pc, false), isa.plan(i, Inputs(isa, i, r)), isa.plan(i, Inputs(isa, i, Committed(r))));
    }
  }

  /** The two plans are the same, or both are computations in registers. */
  predicate RegistersDecide(isa: Isa, i: Instr, r: Regs)
    requires Ready(r)
  {
    var a, a' := isa.plan(i, Inputs(isa, i, r)), isa.plan(i, Inputs(isa, i, Committed(r)));
    a == a' || (a.Compute? && a'.Compute?)
  }

  lemma {:induction false} CommitsFault(isa: Isa, r: Regs, vm: Vm)
    requires Ready(r) && Inv(vm) && OneInstruction(isa, r, vm).Finished?
    requires RegistersDecide(isa, Fetched(isa, r, vm), r)
    ensures !IsPageFault(OneInstruction(isa, Committed(r), vm))
  {
    var pc := r[PCReg];
    CommittedTwice(r, 0, 0);
    assert Committed(r)[PCReg] == pc;
    TouchedKeeps(vm, pc, false);
    var i := Fetched(isa, r, vm);
    ActCommits(
      isa, i, r, Touched(vm, pc, false), isa.plan(i, Inputs(isa, i, r)), isa.plan(i, Inputs(isa, i, Committed(r))));
  }

  lemma {:induction false} CommitsNeeds(isa: Isa, r: Regs, vm: Vm)
    requires Ready(r) && Inv(vm) && OneInstruction(isa, r, vm).Finished?
    requires Similar(OneInstruction(isa, r, vm), OneInstruction(isa, Committed(r), vm))
    requires RegistersDecide(isa, Fetched(isa, r, vm), r)
    ensures Transparent(isa, Fetched(isa, r, vm), r)
  {
    var pc := r[PCReg];
    assert Committed(r)[PCReg] == pc;
    TouchedKeeps(vm, pc, false);
    var i := Fetched(isa, r, vm);
    ActCommits(
      isa, i, r, Touched(vm, pc, false), isa.plan(i, Inputs(isa, i, r)), isa.plan(i, Inputs(isa, i, Committed(r))));
  }

  /**
   * An instruction that has nothing to do with the register whose load is pending: it does not read it, and
   * does not write it at once. A load into it is fine, since that is delayed in its turn. With nothing pending,
   * an unaligned load into r0 may find the leftover of an earlier load there.
   */
  predicate Independent(isa: Isa, i: Instr, r: Regs) {
    var pending := r[LoadReg];
    && (pending != 0 ==> !(isa.readsRs(i) && i.rs == pending) && !(isa.readsRt(i) && i.rt == pending) && isa.dest(i) != Some(pending))
    && !(isa.merges(i) && i.rt == 0 && pending == 0 && r[LoadValueReg] >= 256)
  }

  lemma {:induction false} IndependentIsTransparent(isa: Isa, i: Instr, r: Regs)
    requires Ready(r) && Independent(isa, i, r)
    ensures Transparent(isa, i, r)
  {
    ReadsPending(isa, i, r);
  }

  /** The pending load shows in an instruction's operands exactly if it reads the register and the load changes it. */
  lemma {:induction false} ReadsPending(isa: Isa, i: Instr, r: Regs)
    requires Ready(r)
    ensures Inputs(isa, i, Committed(r)) == Inputs(isa, i, r) <==>
      || r[LoadReg] == 0 || r[r[LoadReg]] == r[LoadValueReg]
      || !((isa.readsRs(i) && i.rs == r[LoadReg]) || (isa.readsRt(i) && i.rt == r[LoadReg]))
  {}
}
