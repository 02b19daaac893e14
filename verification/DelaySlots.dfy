/**
 * Instructions in a load delay slot for which restart is not precise, each run on a concrete machine: one
 * program of one page, which is not in memory, with its first instruction at address 0 and a load of 5 into r1
 * pending.
 */
module DelaySlots {
  import opened Bytes
  import opened Options
  import opened Paging
  import opened Views
  import opened Instructions
  import opened Commits
  import opened Restart
  import opened Mips

  function Registers(): Regs {
    seq(40, k => if k == LoadReg then 1 else if k == LoadValueReg then 5 else if k == NextPCReg then 4 else 0)
  }

  function Image(word: Word): seq<Byte> {
    Encoded(word, 4) + seq(252, k => 0)
  }

  function Swapped(word: Word): Vm {
    Vm(seq(MEMORY_SIZE, k => 0), {}, seq(NUM_FRAMES, k => 0), seq(NUM_FRAMES, k => 0), map[0 := Fresh(Image(word))], 0)
  }

  /** The same memory with the page brought in. */
  function Loaded(word: Word): Vm {
    PagedIn(Swapped(word), 0, 0)
  }

  lemma {:induction false} SwappedOut(word: Word)
    ensures Untouched(Swapped(word)) && Inv(Swapped(word)) && FreeCount(Swapped(word).used, 0) >= 2
    ensures Check(Swapped(word), 0, 4, false) == PageFault && Served(Swapped(word), 0, 4, false) == Loaded(word)
  {
    assert FreeCount({}, 1) == 1 + FreeCount({}, 2);
  }

  lemma {:induction false} LoadedIn(word: Word)
    ensures SameView(Loaded(word), Swapped(word))
    ensures Check(Loaded(word), 0, 4, false) == NoException && ReadValue(Loaded(word), 0, 4) == word
  {
    SwappedOut(word);
    ServedSame(Swapped(word), 0, 4, false);
    SameViewBack(Swapped(word), Loaded(word));
    assert Loaded(word).memory[0..4] == Encoded(word, 4);
    WordRoundTrip(word);
  }

  /** A fault on the fetch, with frames to serve it, makes the instruction end otherwise than with its page resident. */
  predicate Imprecise(isa: Isa, word: Word)
    requires Ready(Registers()) && Inv(Swapped(word)) && Inv(Loaded(word))
  {
    && SameView(Loaded(word), Swapped(word)) && FreeCount(Swapped(word).used, 0) >= 2
    && IsPageFault(OneInstruction(isa, Registers(), Swapped(word)))
    && !Similar(OneInstruction(isa, Registers(), Loaded(word)), Retried(isa, Registers(), Swapped(word)))
  }

  lemma {:induction false} NotPrecise(isa: Isa, word: Word, a: Action, a': Action)
    requires Ready(Registers()) && a.Compute? && a'.Compute?
    requires var i, r := isa.decode(word), Registers();
      a == isa.plan(i, Inputs(isa, i, r)) && a' == isa.plan(i, Inputs(isa, i, Committed(r))) && !Agree(isa, i, r, a, a')
    ensures Inv(Swapped(word)) && Inv(Loaded(word)) && Imprecise(isa, word)
  {
    var r := Registers();
    SwappedOut(word);
    LoadedIn(word);
    Finishes(isa, word, a);
    PreciseExactly(isa, r, Swapped(word), Loaded(word));
  }

  lemma {:induction false} Finishes(isa: Isa, word: Word, a: Action)
    requires Ready(Registers()) && Inv(Loaded(word)) && Inv(Swapped(word)) && a.Compute?
    requires Check(Loaded(word), 0, 4, false) == NoException && ReadValue(Loaded(word), 0, 4) == word
    requires Check(Swapped(word), 0, 4, false) == PageFault
    requires a == isa.plan(isa.decode(word), Inputs(isa, isa.decode(word), Registers()))
    ensures OneInstruction(isa, Registers(), Loaded(word)).Finished? && Fetched(isa, Registers(), Loaded(word)) == isa.decode(word)
    ensures IsPageFault(OneInstruction(isa, Registers(), Swapped(word)))
  {
    assert Registers()[PCReg] == 0;
  }

  /** `addu r3, r1, r0` reads the pending register: it gets 0 straight away, and 5 if the fetch faults first. */
  lemma {:induction false} DelaySlotReader()
    ensures Ready(Registers()) && Inv(Swapped(0x0020_1821)) && Inv(Loaded(0x0020_1821)) && Imprecise(R2000(), 0x0020_1821)
  {
    var i := Decode(0x0020_1821);
    assert i == Instr(ADDU, 1, 0, 3, 0);
    NotPrecise(R2000(), 0x0020_1821, Plan(i, Inputs(R2000(), i, Registers())), Plan(i, Inputs(R2000(), i, Committed(Registers()))));
  }

  /** `addiu r1, r0, 7` writes it: the load wins straight away, and loses if the fetch faults first. */
  lemma {:induction false} DelaySlotWriter()
    ensures Ready(Registers()) && Inv(Swapped(0x2401_0007)) && Inv(Loaded(0x2401_0007)) && Imprecise(R2000(), 0x2401_0007)
  {
    var i := Decode(0x2401_0007);
    assert i == Instr(ADDIU, 0, 1, 0, 7);
    NotPrecise(R2000(), 0x2401_0007, Plan(i, Inputs(R2000(), i, Registers())), Plan(i, Inputs(R2000(), i, Committed(Registers()))));
  }
}
