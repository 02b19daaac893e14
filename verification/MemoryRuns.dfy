/**
 * What virtual memory is for, over whole runs: a number written is the number read back, page tables record
 * which pages were used and written, and a refused access is refused for the stated reason.
 */
module MemoryRuns {
  import opened Bytes
  import opened Paging

  // ---- numbers written and read ----

  lemma {:induction false} VisibleIs(vm: Vm, id: Pid, a: int, b: seq<Byte>)
    requires Inv(vm) && forall k :: 0 <= k < |b| ==> ByteAt(vm, id, Place(a, k)) == b[k]
    ensures Visible(vm, id, a, |b|) == b
  {
    if b != [] {
      var n := |b| - 1;
      VisibleIs(vm, id, a, b[..n]);
      assert Last(a, |b|) == Place(a, n);
      assert b == b[..n] + [b[n]];
    }
  }

  function Place(a: int, k: int): (p: int)
    ensures p == a + k
  {
    a + k
  }

  /** What can be written can be read. */
  lemma {:induction false} WrittenReadable(vm: Vm, addr: Word, size: int, value: Word)
    requires Inv(vm) && IsSize(size) && Check(vm, addr, size, true) == NoException
    ensures Inv(Written(vm, addr, size, value)) && Written(vm, addr, size, value).current == vm.current
    ensures Check(Written(vm, addr, size, value), addr, size, false) == NoException
  {
    WrittenKeeps(vm, addr, size, value);
  }

  lemma {:induction false} WrittenBytes(vm: Vm, addr: Word, size: int, value: Word)
    requires Inv(vm) && IsSize(size) && Check(vm, addr, size, true) == NoException
    ensures Inv(Written(vm, addr, size, value))
    ensures Visible(Written(vm, addr, size, value), vm.current, addr, size) == Encoded(value, size)
  {
    WrittenReadable(vm, addr, size, value);
    InFrame(vm, addr, size, true);
    var vm' := Written(vm, addr, size, value);
    forall k | 0 <= k < size
      ensures ByteAt(vm', vm.current, Place(addr, k)) == Encoded(value, size)[k]
    {
      WithinPage(vm, addr, size, k);
      WrittenView(vm, addr, size, value, vm.current, Place(addr, k));
    }
    VisibleIs(vm', vm.current, addr, Encoded(value, size));
  }

  lemma {:induction false} WithinPage(vm: Vm, addr: Word, size: int, k: int)
    requires Mapped(vm, vm.current, Place(addr, size - 1)) && 0 <= k < size
    ensures Mapped(vm, vm.current, Place(addr, k))
  {}

  /** A number written is read back: a word as it is, a half word as its low half, a byte sign-extended. */
  lemma {:induction false} WriteThenRead(vm: Vm, addr: Word, size: int, value: Word)
    requires Inv(vm) && IsSize(size) && Check(vm, addr, size, true) == NoException
    ensures var vm' := Written(vm, addr, size, value);
      && Inv(vm') && Check(vm', addr, size, false) == NoException
      && ReadValue(vm', addr, size) == Widened(value % Range(size), size)
  {
    WrittenReadable(vm, addr, size, value);
    WrittenBytes(vm, addr, size, value);
    ReadBytes(Written(vm, addr, size, value), addr, size);
    EncodedMeaning(value, size);
  }

  /** A word written is its four digits in base 256, the least significant at the lowest address. */
  lemma {:induction false} WordThenBytes(vm: Vm, addr: Word, value: Word)
    requires Inv(vm) && Check(vm, addr, 4, true) == NoException
    ensures var vm', id := Written(vm, addr, 4, value), vm.current;
      && Inv(vm')
      && ByteAt(vm', id, addr) == value % 256 && ByteAt(vm', id, addr + 1) == value / 256 % 256
      && ByteAt(vm', id, addr + 2) == value / 0x1_0000 % 256 && ByteAt(vm', id, addr + 3) == value / 0x100_0000 % 256
  {
    InFrame(vm, addr, 4, true);
    EncodedBytes(value, 4);
    WrittenKeeps(vm, addr, 4, value);
    forall k | 0 <= k < 4
      ensures ByteAt(Written(vm, addr, 4, value), vm.current, Place(addr, k)) == Encoded(value, 4)[k]
    {
      WithinPage(vm, addr, 4, k);
      WrittenView(vm, addr, 4, value, vm.current, Place(addr, k));
    }
    assert Place(addr, 0) == addr && Place(addr, 1) == addr + 1 && Place(addr, 2) == addr + 2 && Place(addr, 3) == addr + 3;
  }

  /** A byte read is the byte that the program sees, sign-extended. */
  lemma {:induction false} ByteRead(vm: Vm, addr: Word)
    requires Inv(vm) && Check(vm, addr, 1, false) == NoException
    ensures ReadValue(vm, addr, 1) == Widened(ByteAt(vm, vm.current, addr), 1)
  {
    ReadBytes(vm, addr, 1);
    var b := Visible(vm, vm.current, addr, 1);
    assert Last(addr, 1) == addr;
    assert Visible(vm, vm.current, addr, 0) == [];
    assert b == [ByteAt(vm, vm.current, addr)];
    assert LittleEndian(b) == b[0];
  }

  // ---- over runs ----

  /** The event, in state `vm`, writes byte `a` of space `id`. */
  predicate Writes(vm: Vm, e: Event, id: Pid, a: int)
    requires Inv(vm)
  {
    e.Write? && IsSize(e.size) && Goes(vm, e.addr, e.size, true) && id == vm.current && e.addr <= a < e.addr + e.size
  }

  /** No event after the first `n` writes byte `a` of space `id`. */
  predicate Unwritten(vm0: Vm, events: seq<Event>, n: nat, id: Pid, a: int)
    requires Untouched(vm0) && Run(vm0, events)
  {
    |events| > n ==>
      var m := |events| - 1;
      Unwritten(vm0, events[..m], n, id, a) && !Writes(After(vm0, events[..m]), events[m], id, a)
  }

  lemma {:induction false} RunPrefix(vm0: Vm, events: seq<Event>, n: nat)
    requires Untouched(vm0) && Run(vm0, events) && n <= |events|
    ensures Run(vm0, events[..n])
  {
    if n < |events| {
      var m := |events| - 1;
      RunPrefix(vm0, events[..m], n);
      assert events[..m][..n] == events[..n];
    } else {
      assert events[..n] == events;
    }
  }

  lemma {:induction false} NextSpaces(vm: Vm, e: Event, id: Pid)
    requires Inv(vm) && Enabled(vm, e) && id in vm.spaces
    ensures id in Next(vm, e).spaces
  {}

  lemma {:induction false} SpacesStay(vm0: Vm, events: seq<Event>, n: nat, id: Pid)
    requires Untouched(vm0) && Run(vm0, events) && n <= |events| && Run(vm0, events[..n]) && id in After(vm0, events[..n]).spaces
    ensures id in After(vm0, events).spaces
  {
    if n < |events| {
      var m := |events| - 1;
      assert events[..m][..n] == events[..n];
      SpacesStay(vm0, events[..m], n, id);
      NextSpaces(After(vm0, events[..m]), events[m], id);
    } else {
      assert events[..n] == events;
    }
  }

  lemma {:induction false} ByteStays(vm: Vm, e: Event, id: Pid, a: int, before: Byte)
    requires Inv(vm) && Enabled(vm, e) && id in vm.spaces && !Writes(vm, e, id, a)
    ensures ByteAfter(vm, e, id, a, before) == before
  {}

  lemma {:induction false} LatestStays(vm0: Vm, events: seq<Event>, n: nat, id: Pid, a: int)
    requires Untouched(vm0) && Run(vm0, events) && n <= |events| && Run(vm0, events[..n])
    requires id in After(vm0, events[..n]).spaces && Unwritten(vm0, events, n, id, a)
    ensures Latest(vm0, events, id, a) == Latest(vm0, events[..n], id, a)
  {
    if n < |events| {
      var m := |events| - 1;
      assert events[..m][..n] == events[..n];
      LatestStays(vm0, events[..m], n, id, a);
      SpacesStay(vm0, events[..m], n, id);
      ByteStays(After(vm0, events[..m]), events[m], id, a, Latest(vm0, events[..m], id, a));
    } else {
      assert events[..n] == events;
    }
  }

  lemma {:induction false} LatestBytesAre(vm0: Vm, events: seq<Event>, id: Pid, a: int, b: seq<Byte>)
    requires Untouched(vm0) && Run(vm0, events) && forall k :: 0 <= k < |b| ==> Latest(vm0, events, id, Place(a, k)) == b[k]
    ensures LatestBytes(vm0, events, id, a, |b|) == b
  {
    if b != [] {
      var n := |b| - 1;
      LatestBytesAre(vm0, events, id, a, b[..n]);
      assert Last(a, |b|) == Place(a, n);
      assert b == b[..n] + [b[n]];
    }
  }

  lemma {:induction false} PrefixStep(vm0: Vm, events: seq<Event>, n: nat, l: nat, id: Pid, a: int)
    requires Untouched(vm0) && Run(vm0, events) && n < |events| && l == n + 1
    ensures Run(vm0, events[..n]) && Run(vm0, events[..l]) && Enabled(After(vm0, events[..n]), events[n])
    ensures After(vm0, events[..l]) == Next(After(vm0, events[..n]), events[n])
    ensures Latest(vm0, events[..l], id, a) == ByteAfter(After(vm0, events[..n]), events[n], id, a, Latest(vm0, events[..n], id, a))
  {
    RunPrefix(vm0, events, l);
    assert events[..l][..n] == events[..n] && events[..l][n] == events[n];
  }

  lemma {:induction false} LatestWritten(vm0: Vm, events: seq<Event>, n: nat, addr: Word, size: int, value: Word, k: nat)
    requires Untouched(vm0) && Run(vm0, events) && n < |events| && Run(vm0, events[..n]) && IsSize(size) && k < size
    requires events[n] == Write(addr, size, value) && Goes(After(vm0, events[..n]), addr, size, true)
    requires Unwritten(vm0, events, n + 1, After(vm0, events[..n]).current, Place(addr, k))
    ensures Latest(vm0, events, After(vm0, events[..n]).current, Place(addr, k)) == Encoded(value, size)[k]
  {
    var vm, id, l := After(vm0, events[..n]), After(vm0, events[..n]).current, n + 1;
    PrefixStep(vm0, events, n, l, id, Place(addr, k));
    NextSpaces(vm, events[n], id);
    LatestStays(vm0, events, l, id, Place(addr, k));
  }

  /**
   * A number written and not overwritten is read back after any run: accesses, page faults, other programs'
   * writes to the same addresses, program starts and context switches included.
   */
  lemma {:induction false} RunReadsBack(vm0: Vm, events: seq<Event>, n: nat, addr: Word, size: int, value: Word)
    requires Untouched(vm0) && Run(vm0, events) && n < |events| && Run(vm0, events[..n]) && IsSize(size)
    requires events[n] == Write(addr, size, value) && Goes(After(vm0, events[..n]), addr, size, true)
    requires forall k :: 0 <= k < size ==> Unwritten(vm0, events, n + 1, After(vm0, events[..n]).current, Place(addr, k))
    requires After(vm0, events).current == After(vm0, events[..n]).current && Goes(After(vm0, events), addr, size, false)
    ensures var vm := Served(After(vm0, events), addr, size, false);
      Inv(vm) && ReadValue(vm, addr, size) == Widened(value % Range(size), size)
  {
    var id := After(vm0, events).current;
    forall k: nat | k < size
      ensures Latest(vm0, events, id, Place(addr, k)) == Encoded(value, size)[k]
    {
      LatestWritten(vm0, events, n, addr, size, value, k);
    }
    LatestBytesAre(vm0, events, id, addr, Encoded(value, size));
    ReadReturnsLatest(vm0, events, addr, size);
    EncodedMeaning(value, size);
  }

  // ---- what the page tables record ----

  datatype Mark = Present | Used | Dirty

  function MarkOf(m: Mark, e: Translation): bool {
    match m
    case Present => e.valid
    case Used => e.use
    case Dirty => e.dirty
  }

  predicate Access(e: Event) {
    e.Read? || e.Write?
  }

  /**
   * The event, in state `vm`, is an access to page `vp` of space `id` that brings it in, goes through, or goes
   * through and writes.
   */
  predicate Marks(m: Mark, vm: Vm, e: Event, id: Pid, vp: int)
    requires Inv(vm) && id in vm.spaces && 0 <= vp < |vm.spaces[id].table|
  {
    && Access(e) && id == vm.current && PageOf(e.addr) == vp
    && match m
       case Present => Aligned(e.addr, e.size) && !Entry(vm, id, vp).valid && FreeFrame(vm.used, 0) != -1
       case Used => IsSize(e.size) && Goes(vm, e.addr, e.size, e.Write?)
       case Dirty => e.Write? && IsSize(e.size) && Goes(vm, e.addr, e.size, true)
  }

  predicate HasPage(vm: Vm, id: Pid, vp: int) {
    id in vm.spaces && 0 <= vp < |vm.spaces[id].table|
  }

  lemma {:induction false} ServedMarks(vm: Vm, addr: Word, size: int, writing: bool, id: Pid, vp: int)
    requires Inv(vm) && HasPage(vm, id, vp)
    ensures var vm' := Served(vm, addr, size, writing); var e, e' := Entry(vm, id, vp), vm'.spaces[id].table[vp];
      && HasPage(vm', id, vp) && Entry(vm', id, vp) == e' && e'.use == e.use && e'.dirty == e.dirty
      && (e'.valid <==> e.valid || (id == vm.current && PageOf(addr) == vp && Aligned(addr, size) && FreeFrame(vm.used, 0) != -1))
  {}

  lemma {:induction false} TouchedMarks(vm: Vm, addr: Word, writing: bool, id: Pid, vp: int)
    requires Inv(vm) && HasPage(vm, vm.current, PageOf(addr)) && HasPage(vm, id, vp)
    ensures var vm' := Touched(vm, addr, writing); var e, e' := Entry(vm, id, vp), vm'.spaces[id].table[vp];
      && HasPage(vm', id, vp) && Entry(vm', id, vp) == e' && e'.valid == e.valid
      && (e'.use <==> e.use || (id == vm.current && PageOf(addr) == vp))
      && (e'.dirty <==> e.dirty || (id == vm.current && PageOf(addr) == vp && writing))
  {}

  lemma {:induction false} NextMarks(vm: Vm, e: Event, m: Mark, id: Pid, vp: int)
    requires Inv(vm) && Enabled(vm, e) && HasPage(vm, id, vp)
    ensures HasPage(Next(vm, e), id, vp)
    ensures MarkOf(m, Entry(Next(vm, e), id, vp)) <==> MarkOf(m, Entry(vm, id, vp)) || Marks(m, vm, e, id, vp)
  {
    match e
    case Create(_, _) =>
    case Switch(_) =>
    case Read(addr, size) => ReadMarks(vm, addr, size, m, id, vp);
    case Write(addr, size, value) => WriteMarks(vm, addr, size, value, m, id, vp);
  }

  lemma {:induction false} ReadMarks(vm: Vm, addr: Word, size: int, m: Mark, id: Pid, vp: int)
    requires Inv(vm) && IsSize(size) && HasPage(vm, id, vp)
    ensures var e := Read(addr, size);
      HasPage(Next(vm, e), id, vp) && (MarkOf(m, Entry(Next(vm, e), id, vp)) <==> MarkOf(m, Entry(vm, id, vp)) || Marks(m, vm, e, id, vp))
  {
    AccessMarks(vm, addr, size, false, id, vp);
  }

  lemma {:induction false} WriteMarks(vm: Vm, addr: Word, size: int, value: Word, m: Mark, id: Pid, vp: int)
    requires Inv(vm) && IsSize(size) && HasPage(vm, id, vp)
    ensures var e := Write(addr, size, value);
      HasPage(Next(vm, e), id, vp) && (MarkOf(m, Entry(Next(vm, e), id, vp)) <==> MarkOf(m, Entry(vm, id, vp)) || Marks(m, vm, e, id, vp))
  {
    AccessMarks(vm, addr, size, true, id, vp);
  }

  /** An access leaves page `vp` of space `id` with this entry. */
  predicate Leaves(vm: Vm, addr: Word, size: int, writing: bool, id: Pid, vp: int, e': Translation)
    requires Inv(vm) && HasPage(vm, id, vp)
  {
    var e, here := Entry(vm, id, vp), id == vm.current && PageOf(addr) == vp;
    && (e'.valid <==> e.valid || (here && Aligned(addr, size) && FreeFrame(vm.used, 0) != -1))
    && (e'.use <==> e.use || (here && Goes(vm, addr, size, writing)))
    && (e'.dirty <==> e.dirty || (here && Goes(vm, addr, size, writing) && writing))
  }

  lemma {:induction false} AccessMarks(vm: Vm, addr: Word, size: int, writing: bool, id: Pid, vp: int)
    requires Inv(vm) && HasPage(vm, id, vp)
    ensures var vm' := Served(vm, addr, size, writing);
      && Inv(vm') && HasPage(vm', id, vp)
      && if Goes(vm, addr, size, writing) then Touchable(vm', addr) && Leaves(vm, addr, size, writing, id, vp, Touched(vm', addr, writing).spaces[id].table[vp])
         else Leaves(vm, addr, size, writing, id, vp, Entry(vm', id, vp))
  {
    ServedKeeps(vm, addr, size, writing);
    ServedMarks(vm, addr, size, writing, id, vp);
    if Goes(vm, addr, size, writing) {
      TouchedMarks(Served(vm, addr, size, writing), addr, writing, id, vp);
    }
  }

  predicate Touchable(vm: Vm, addr: Word) {
    HasPage(vm, vm.current, PageOf(addr))
  }

  /** At the start, or at some event of the run, page `vp` of space `id` was given the mark. */
  predicate Ever(vm0: Vm, events: seq<Event>, m: Mark, id: Pid, vp: int)
    requires Untouched(vm0) && Run(vm0, events)
  {
    if events == [] then HasPage(vm0, id, vp) && MarkOf(m, Entry(vm0, id, vp))
    else
      var n := |events| - 1;
      var vm := After(vm0, events[..n]);
      Ever(vm0, events[..n], m, id, vp) || (HasPage(vm, id, vp) && Marks(m, vm, events[n], id, vp))
  }

  lemma {:induction false} NewPage(vm: Vm, e: Event, m: Mark, id: Pid, vp: int)
    requires Inv(vm) && Enabled(vm, e) && !HasPage(vm, id, vp) && HasPage(Next(vm, e), id, vp)
    ensures !MarkOf(m, Entry(Next(vm, e), id, vp))
  {
    match e
    case Create(_, _) =>
    case Switch(_) =>
    case Read(addr, size) => NoPageAccessed(vm, addr, size, false, id, vp);
    case Write(addr, size, _) => NoPageAccessed(vm, addr, size, true, id, vp);
  }

  /** Accesses add no page to any space. */
  lemma {:induction false} NoPageAccessed(vm: Vm, addr: Word, size: int, writing: bool, id: Pid, vp: int)
    requires Inv(vm) && !HasPage(vm, id, vp)
    ensures !HasPage(Served(vm, addr, size, writing), id, vp)
    ensures Touchable(Served(vm, addr, size, writing), addr) ==> !HasPage(Touched(Served(vm, addr, size, writing), addr, writing), id, vp)
  {}

  lemma {:induction false} NoPageNoMark(vm0: Vm, events: seq<Event>, m: Mark, id: Pid, vp: int)
    requires Untouched(vm0) && Run(vm0, events) && Ever(vm0, events, m, id, vp)
    ensures HasPage(After(vm0, events), id, vp)
  {
    if events != [] {
      var n := |events| - 1;
      if Ever(vm0, events[..n], m, id, vp) {
        NoPageNoMark(vm0, events[..n], m, id, vp);
      }
      NextMarks(After(vm0, events[..n]), events[n], m, id, vp);
    }
  }

  /**
   * After every run a page is valid exactly if an access to it ever found a free frame, used exactly if an
   * access to it ever went through, and dirty exactly if a write to it did.
   */
  lemma {:induction false} RunMarks(vm0: Vm, events: seq<Event>, m: Mark, id: Pid, vp: int)
    requires Untouched(vm0) && Run(vm0, events) && HasPage(After(vm0, events), id, vp)
    ensures MarkOf(m, Entry(After(vm0, events), id, vp)) <==> Ever(vm0, events, m, id, vp)
  {
    if events != [] {
      var n := |events| - 1;
      var vm := After(vm0, events[..n]);
      if HasPage(vm, id, vp) {
        RunMarks(vm0, events[..n], m, id, vp);
        NextMarks(vm, events[n], m, id, vp);
      } else {
        NewPage(vm, events[n], m, id, vp);
        if Ever(vm0, events[..n], m, id, vp) {
          NoPageNoMark(vm0, events[..n], m, id, vp);
        }
      }
    }
  }

  // ---- refused accesses ----

  /**
   * Which exception an access ends with, its page fault served: alignment and range come first, then a missing
   * page for which no frame is free, then a write to a read-only page.
   */
  lemma {:induction false} RefusedFor(vm: Vm, addr: Word, size: int, writing: bool)
    requires Inv(vm)
    ensures var why := Check(Served(vm, addr, size, writing), addr, size, writing);
      && (why == AddressError <==> !Aligned(addr, size) || addr / 256 >= |vm.spaces[vm.current].table|)
      && (why == PageFault <==>
           Aligned(addr, size) && HasPage(vm, vm.current, addr / 256) && !Entry(vm, vm.current, addr / 256).valid
           && forall f :: 0 <= f < NUM_FRAMES ==> f in vm.used)
      && (why == ReadOnly <==>
           Aligned(addr, size) && HasPage(vm, vm.current, addr / 256) && writing && Entry(vm, vm.current, addr / 256).readOnly
           && (Entry(vm, vm.current, addr / 256).valid || exists f :: 0 <= f < NUM_FRAMES && f !in vm.used))
      && why != BusError
  {
    ServedKeeps(vm, addr, size, writing);
    NoBusError(Served(vm, addr, size, writing), addr, size, writing);
    assert FreeFrame(vm.used, 0) != -1 ==> FreeFrame(vm.used, 0) !in vm.used;
  }
}
