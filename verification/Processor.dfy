/**
 * The simulated processor: the register array updated in place, on top of the paged memory. `OneInstruction`
 * does what the instruction cycle on values in `Instructions` does.
 */
module Processor {
  import opened Bytes
  import opened Paging
  import opened PagedMachine
  import opened Instructions

  datatype Ended = Done | Trap(cause: Cause) | Died

  class Cpu {
    const registers: array<Word>
    const memory: Machine
    const isa: Isa

    ghost predicate Valid()
      reads this, registers, memory, memory.mainMemory, memory.frames, memory.frames.words, memory.IPT, memory.IPT_VP
    {
      && memory.Valid() && registers.Length == NUM_TOTAL_REGS && Ready(registers[..])
      && registers as object !in {memory.mainMemory as object, memory.IPT as object, memory.IPT_VP as object, memory.frames.words as object}
    }

    /** All registers zero but NextPC, which the address space sets together with PC. */
    constructor (isa: Isa, memory: Machine)
      requires memory.Valid()
      ensures Valid() && this.isa == isa && this.memory == memory && fresh(registers)
    {
      this.isa := isa;
      this.memory := memory;
      registers := new Word[NUM_TOTAL_REGS](i => if i == NextPCReg then 4 else 0);
    }

    /** The registers and the memory are those of a result, and the way it ended is reported. */
    ghost predicate Shows(x: Result, ended: Ended)
      reads this, registers, memory, memory.mainMemory, memory.frames, memory.IPT, memory.IPT_VP
    {
      match x
      case Finished(r, vm) => ended == Done && registers[..] == r && memory.View() == vm
      case Trapped(cause, r, vm) => ended == Trap(cause) && registers[..] == r && memory.View() == vm
      case Aborted => ended == Died
    }

    method DelayedLoad(nextReg: Word, nextValue: Word)
      requires registers.Length == NUM_TOTAL_REGS && registers[LoadReg] < NUM_TOTAL_REGS
      modifies registers
      ensures registers[..] == Instructions.DelayedLoad(old(registers[..]), nextReg, nextValue)
    {
      registers[registers[LoadReg]] := registers[LoadValueReg];
      registers[LoadReg] := nextReg;
      registers[LoadValueReg] := nextValue;
      registers[0] := 0;
    }

    /** The register side of entering the kernel. */
    method RaiseException(badVAddr: Word)
      requires registers.Length == NUM_TOTAL_REGS && Ready(registers[..])
      modifies registers
      ensures registers[..] == Raised(old(registers[..]), badVAddr)
    {
      registers[BadVAddrReg] := badVAddr;
      DelayedLoad(0, 0);
    }

    /** The end of a successful instruction: the delayed load, and the program counters. */
    method Finish(nextReg: Word, nextValue: Word, pcAfter: Word)
      requires registers.Length == NUM_TOTAL_REGS && registers[LoadReg] < NUM_TOTAL_REGS
      modifies registers
      ensures registers[..] == Completed(old(registers[..]), nextReg, nextValue, pcAfter)
    {
      DelayedLoad(nextReg, nextValue);
      registers[PrevPCReg] := registers[PCReg];
      registers[PCReg] := registers[NextPCReg];
      registers[NextPCReg] := pcAfter;
    }

    method Load(i: Instr, addr: Word, size: int, extend: Extend) returns (ended: Ended)
      requires Valid() && IsSize(size)
      modifies registers, memory, memory.mainMemory, memory.frames, memory.frames.words, memory.IPT, memory.IPT_VP
      ensures memory.Valid()
      ensures Shows(DoLoad(isa, i, old(registers[..]), old(memory.View()), addr, size, extend), ended)
    {
      ghost var r := registers[..];
      var pcAfter := Next4(registers[..]);
      var exception, value := memory.ReadMem(addr, size);
      assert registers[..] == r;
      if exception != NoException {
        RaiseException(addr);
        return Trap(Fault(exception));
      }
      var before := OldValue(i);
      Finish(i.rt, Extended(extend, value, before), pcAfter);
      return Done;
    }

    method OldValue(i: Instr) returns (before: Word)
      requires registers.Length == NUM_TOTAL_REGS
      ensures before == Old(isa, i, registers[..])
    {
      if !isa.merges(i) {
        before := 0;
      } else if registers[LoadReg] == i.rt {
        before := registers[LoadValueReg];
      } else {
        before := registers[i.rt];
      }
    }

    method Store(addr: Word, size: int, value: Word) returns (ended: Ended)
      requires Valid() && IsSize(size)
      modifies registers, memory, memory.mainMemory, memory.frames, memory.frames.words, memory.IPT, memory.IPT_VP
      ensures memory.Valid()
      ensures Shows(DoStore(old(registers[..]), old(memory.View()), addr, size, value), ended)
    {
      ghost var r := registers[..];
      var pcAfter := Next4(registers[..]);
      var exception := memory.WriteMem(addr, size, value);
      assert registers[..] == r;
      if exception != NoException {
        RaiseException(addr);
        return Trap(Fault(exception));
      }
      Finish(0, 0, pcAfter);
      return Done;
    }

    method Modify(addr: Word, left: bool, value: Word) returns (ended: Ended)
      requires Valid()
      modifies registers, memory, memory.mainMemory, memory.frames, memory.frames.words, memory.IPT, memory.IPT_VP
      ensures memory.Valid()
      ensures Shows(DoModify(old(registers[..]), old(memory.View()), addr, left, value), ended)
    {
      ghost var r := registers[..];
      var exception, there := memory.ReadMem(addr, 4);
      assert registers[..] == r;
      if exception != NoException {
        RaiseException(addr);
        return Trap(Fault(exception));
      }
      ended := Store(addr, 4, Modified(left, value, there));
    }

    method Compute(i: Instr, value: Word, hi: Word, lo: Word, pcAfter: Word)
      requires registers.Length == NUM_TOTAL_REGS && Ready(registers[..])
      modifies registers
      ensures registers[..] == Completed(WriteReg(old(registers[..])[HiReg := hi][LoReg := lo], isa.dest(i), value), 0, 0, pcAfter)
    {
      registers[HiReg] := hi;
      registers[LoReg] := lo;
      var d := isa.dest(i);
      if d.Some? {
        registers[d.value] := value;
      }
      Finish(0, 0, pcAfter);
    }

    method Execute(i: Instr, action: Action) returns (ended: Ended)
      requires Valid()
      modifies registers, memory, memory.mainMemory, memory.frames, memory.frames.words, memory.IPT, memory.IPT_VP
      ensures memory.Valid()
      ensures Shows(Act(isa, i, old(registers[..]), old(memory.View()), action), ended)
    {
      match action {
        case Compute(value, hi, lo, pcAfter) =>
          Compute(i, value, hi, lo, pcAfter);
          ended := Done;
        case Load(addr, size, extend) =>
          if IsSize(size) {
            ended := Load(i, addr, size, extend);
          } else {
            ended := Died;
          }
        case Store(addr, size, value) =>
          if IsSize(size) {
            ended := Store(addr, size, value);
          } else {
            ended := Died;
          }
        case Modify(addr, left, value) =>
          ended := Modify(addr, left, value);
        case Raise(why, badVAddr) =>
          RaiseException(badVAddr);
          ended := Trap(CauseOf(why));
        case Abort =>
          ended := Died;
      }
    }

    method Operands(i: Instr) returns (o: Operands)
      requires registers.Length == NUM_TOTAL_REGS
      ensures o == Inputs(isa, i, registers[..])
    {
      var rs, rt := 0, 0;
      if isa.readsRs(i) {
        rs := registers[i.rs];
      }
      if isa.readsRt(i) {
        rt := registers[i.rt];
      }
      o := Instructions.Operands.Operands(rs, rt, registers[HiReg], registers[LoReg], registers[NextPCReg]);
    }

    /** Fetch, decode and execute; or trap, with whatever was pending finished. */
    method OneInstruction() returns (ended: Ended)
      requires Valid()
      modifies registers, memory, memory.mainMemory, memory.frames, memory.frames.words, memory.IPT, memory.IPT_VP
      ensures memory.Valid() && (ended != Died ==> Valid())
      ensures Shows(Instructions.OneInstruction(isa, old(registers[..]), old(memory.View())), ended)
    {
      ghost var r := registers[..];
      BoundaryReady(isa, r, memory.View());
      var pc := registers[PCReg];
      var exception, raw := memory.ReadMem(pc, 4);
      assert registers[..] == r;
      if exception != NoException {
        RaiseException(pc);
        return Trap(Fault(exception));
      }
      var i := isa.decode(raw);
      var o := Operands(i);
      ended := Execute(i, isa.plan(i, o));
    }
  }
}
