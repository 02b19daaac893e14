/**
 * Demand paging: page tables, the frame map, the inverted page table (IPT, IPT_VP) and main memory, with a swap
 * file behind every address space. Pages are 256 bytes and there are 32 frames. Each thread has its own address
 * space, so a space stands for its thread in the inverted page table.
 */
module Paging {
  import opened Bytes

  const NUM_FRAMES := 32
  const MEMORY_SIZE := 8192

  type Pid = nat

  datatype Translation = Translation(
    virtualPage: int, physicalPage: int, valid: bool, use: bool, dirty: bool, readOnly: bool)

  datatype Space = Space(table: seq<Translation>, swap: seq<Byte>)

  datatype Vm = Vm(
    memory: seq<Byte>,
    used: set<int>,
    owner: seq<Pid>,
    page: seq<int>,
    spaces: map<Pid, Space>,
    current: Pid)

  datatype Exception = NoException | PageFault | ReadOnly | BusError | AddressError

  function PageOf(a: int): (p: int)
    ensures 0 <= a ==> 0 <= p
  {
    a / 256
  }

  function OffsetOf(a: int): (o: int)
    ensures 0 <= o < 256 && a == PageOf(a) * 256 + o
  {
    a % 256
  }

  function Start(p: int): int {
    p * 256
  }

  /** An address space starts with no page in memory, and its image in the swap file. */
  function Fresh(image: seq<Byte>): Space {
    Space(seq(|image| / 256, i => Translation(i, 0, false, false, false, false)), image)
  }

  // ---- what the program sees ----

  predicate Mapped(vm: Vm, id: Pid, a: int) {
    id in vm.spaces && 0 <= a && PageOf(a) < |vm.spaces[id].table|
  }

  function Entry(vm: Vm, id: Pid, vp: int): Translation
    requires id in vm.spaces && 0 <= vp < |vm.spaces[id].table|
  {
    vm.spaces[id].table[vp]
  }

  /** The byte at virtual address `a` of space `id`, wherever it is kept. */
  function At(vm: Vm, id: Pid, a: int): Byte
    requires Inv(vm) && Mapped(vm, id, a)
  {
    var e := Entry(vm, id, PageOf(a));
    if e.valid then
      assert PageOk(vm, id, PageOf(a));
      vm.memory[Start(e.physicalPage) + OffsetOf(a)]
    else
      vm.spaces[id].swap[a]
  }

  // ---- the invariant ----

  /** A valid page has a frame of its own, which the inverted page table and the frame map know about. */
  predicate PageOk(vm: Vm, id: Pid, vp: int)
    requires Shape(vm) && id in vm.spaces && 0 <= vp < |vm.spaces[id].table|
  {
    var e := vm.spaces[id].table[vp];
    e.valid ==> e.physicalPage in vm.used && vm.owner[e.physicalPage] == id && vm.page[e.physicalPage] == vp
  }

  /** A frame in use holds the page that the inverted page table says. */
  predicate FrameOk(vm: Vm, f: int)
    requires Shape(vm) && f in vm.used
  {
    var id, vp := vm.owner[f], vm.page[f];
    id in vm.spaces && 0 <= vp < |vm.spaces[id].table| && vm.spaces[id].table[vp].valid && vm.spaces[id].table[vp].physicalPage == f
  }

  predicate Shape(vm: Vm) {
    && |vm.memory| == MEMORY_SIZE && |vm.owner| == NUM_FRAMES && |vm.page| == NUM_FRAMES && vm.current in vm.spaces
    && (forall f :: f in vm.used ==> 0 <= f < NUM_FRAMES)
    && (forall id :: id in vm.spaces ==> SpaceOk(vm.spaces[id]))
  }

  predicate SpaceOk(sp: Space) {
    |sp.swap| == Start(|sp.table|) <= 0x8000_0000
  }

  predicate Inv(vm: Vm) {
    && Shape(vm)
    && (forall f :: f in vm.used ==> FrameOk(vm, f))
    && (forall id, vp :: id in vm.spaces && 0 <= vp < |vm.spaces[id].table| ==> PageOk(vm, id, vp))
  }

  /** No two valid pages, of the same or of different spaces, share a frame. */
  lemma {:induction false} NoSharing(vm: Vm, id: Pid, vp: int, id': Pid, vp': int)
    requires Inv(vm) && id in vm.spaces && 0 <= vp < |vm.spaces[id].table| && id' in vm.spaces && 0 <= vp' < |vm.spaces[id'].table|
    requires Entry(vm, id, vp).valid && Entry(vm, id', vp').valid && Entry(vm, id, vp).physicalPage == Entry(vm, id', vp').physicalPage
    ensures id == id' && vp == vp'
  {
    assert PageOk(vm, id, vp) && PageOk(vm, id', vp');
  }

  // ---- translation ----

  predicate Aligned(addr: int, size: int) {
    (size == 4 ==> addr % 4 == 0) && (size == 2 ==> addr % 2 == 0)
  }

  /** The checks of `Translate`, in their order. */
  function Check(vm: Vm, addr: Word, size: int, writing: bool): Exception
    requires vm.current in vm.spaces
  {
    if !Aligned(addr, size) then AddressError
    else if PageOf(addr) >= |vm.spaces[vm.current].table| then AddressError
    else
      var e := Entry(vm, vm.current, PageOf(addr));
      if !e.valid then PageFault
      else if e.readOnly && writing then ReadOnly
      else if !(0 <= e.physicalPage < NUM_FRAMES) then BusError
      else NoException
  }

  function SetEntry(vm: Vm, vp: int, e: Translation): Vm
    requires vm.current in vm.spaces && 0 <= vp < |vm.spaces[vm.current].table|
  {
    var sp := vm.spaces[vm.current];
    vm.(spaces := vm.spaces[vm.current := sp.(table := sp.table[vp := e])])
  }

  /** Translation leaves its mark: the use bit, and the dirty bit for a write. */
  function Touched(vm: Vm, addr: Word, writing: bool): Vm
    requires vm.current in vm.spaces && PageOf(addr) < |vm.spaces[vm.current].table|
  {
    var e := Entry(vm, vm.current, PageOf(addr));
    SetEntry(vm, PageOf(addr), e.(use := true, dirty := e.dirty || writing))
  }

  function Physical(vm: Vm, addr: Word): int
    requires vm.current in vm.spaces && PageOf(addr) < |vm.spaces[vm.current].table|
  {
    Start(Entry(vm, vm.current, PageOf(addr)).physicalPage) + OffsetOf(addr)
  }

  // ---- values in memory ----

  /** The low `size` bytes of a word, least significant first. */
  function Encoded(value: Word, size: int): (b: seq<Byte>)
    ensures |b| == if size == 1 || size == 2 then size else 4
  {
    if size == 1 then [Digit(value, 0)]
    else if size == 2 then [Digit(value, 0), Digit(value, 1)]
    else [Digit(value, 0), Digit(value, 1), Digit(value, 2), Digit(value, 3)]
  }

  /** A byte read as a `char` is signed; a half word is not; a word is itself. */
  function Decoded(b: seq<Byte>): Word {
    if |b| == 1 then (if b[0] < 128 then b[0] else b[0] + 0xffff_ff00)
    else if |b| == 2 then b[0] + 256 * b[1]
    else if |b| == 4 then FromDigits(b[0], b[1], b[2], b[3])
    else 0
  }

  /** The number that bytes stand for, the least significant first. */
  function LittleEndian(b: seq<Byte>): nat {
    if b == [] then 0 else b[0] + 256 * LittleEndian(b[1..])
  }

  /** What a register gets from a number of `size` bytes: a byte is sign-extended, a half word is not. */
  function Widened(n: nat, size: int): int {
    if size == 1 && n >= 128 then n - 256 + 0x1_0000_0000 else n
  }

  /** How many numbers `size` bytes can stand for. */
  function Range(size: int): int {
    if size == 1 then 256 else if size == 2 then 0x1_0000 else 0x1_0000_0000
  }

  lemma {:induction false} LittleEndian2(b: seq<Byte>)
    requires |b| >= 2
    ensures LittleEndian(b) == b[0] + 256 * (b[1] + 256 * LittleEndian(b[2..]))
  {
    assert b[1..][1..] == b[2..];
  }

  lemma {:induction false} DecodedMeaning(b: seq<Byte>)
    requires IsSize(|b|)
    ensures Decoded(b) == Widened(LittleEndian(b), |b|)
  {
    if |b| == 1 {
      assert LittleEndian(b) == b[0];
    } else {
      LittleEndian2(b);
      if |b| == 4 {
        LittleEndian2(b[2..]);
      }
    }
  }

  /** Byte `k` of a stored word is digit `k` of it in base 256. */
  lemma {:induction false} EncodedBytes(value: Word, size: int)
    requires IsSize(size)
    ensures Encoded(value, size)[0] == value % 256
    ensures size >= 2 ==> Encoded(value, size)[1] == value / 256 % 256
    ensures size == 4 ==> Encoded(value, size)[2] == value / 0x1_0000 % 256 && Encoded(value, size)[3] == value / 0x100_0000 % 256
  {}

  lemma {:induction false} EncodedMeaning(value: Word, size: int)
    requires IsSize(size)
    ensures LittleEndian(Encoded(value, size)) == value % Range(size)
  {
    var b := Encoded(value, size);
    if size == 1 {
      assert LittleEndian(b) == b[0];
    } else {
      LittleEndian2(b);
      if size == 4 {
        LittleEndian2(b[2..]);
        DigitsRoundTrip(value);
      }
    }
  }

  /** What is written is what is read, as far as the size goes. */
  lemma {:induction false} WordRoundTrip(value: Word)
    ensures Decoded(Encoded(value, 4)) == value
  {
    DigitsRoundTrip(value);
  }

  predicate IsSize(size: int) {
    size == 1 || size == 2 || size == 4
  }

  lemma {:induction false} AlignedFits(addr: int, size: int)
    requires IsSize(size) && Aligned(addr, size)
    ensures OffsetOf(addr) + size <= 256 && PageOf(addr + size - 1) == PageOf(addr)
  {
    var p := PageOf(addr);
    if size == 4 {
      assert OffsetOf(addr) == 4 * (addr / 4 - 64 * p);
    } else if size == 2 {
      assert OffsetOf(addr) == 2 * (addr / 2 - 128 * p);
    }
    SamePage(p, OffsetOf(addr) + size - 1);
  }

  lemma {:induction false} SamePage(p: int, o: int)
    requires 0 <= o < 256
    ensures PageOf(p * 256 + o) == p
  {}

  /** A successful read or write stays within one frame. */
  lemma {:induction false} InFrame(vm: Vm, addr: Word, size: int, writing: bool)
    requires Inv(vm) && IsSize(size) && Check(vm, addr, size, writing) == NoException
    ensures OffsetOf(addr) + size <= 256
    ensures 0 <= Physical(vm, addr) && Physical(vm, addr) + size <= MEMORY_SIZE
    ensures Mapped(vm, vm.current, addr) && Mapped(vm, vm.current, addr + size - 1)
  {
    AlignedFits(addr, size);
    assert PageOk(vm, vm.current, PageOf(addr));
  }

  /** Under the invariant a bus error never happens. */
  lemma {:induction false} NoBusError(vm: Vm, addr: Word, size: int, writing: bool)
    requires Inv(vm)
    ensures Check(vm, addr, size, writing) != BusError
  {
    if PageOf(addr) < |vm.spaces[vm.current].table| {
      assert PageOk(vm, vm.current, PageOf(addr));
    }
  }

  // ---- the steps ----

  function Written(vm: Vm, addr: Word, size: int, value: Word): Vm
    requires Inv(vm) && IsSize(size) && Check(vm, addr, size, true) == NoException
  {
    InFrame(vm, addr, size, true);
    Touched(vm, addr, true).(memory := Splice(vm.memory, Physical(vm, addr), Encoded(value, size)))
  }

  function ReadValue(vm: Vm, addr: Word, size: int): Word
    requires Inv(vm) && IsSize(size) && Check(vm, addr, size, false) == NoException
  {
    InFrame(vm, addr, size, false);
    Decoded(vm.memory[Physical(vm, addr)..Physical(vm, addr) + size])
  }

  /** `PageFaultException` with a free frame `f`: note the frame, copy the page in, make the entry valid. */
  function PagedIn(vm: Vm, vp: int, f: int): Vm
    requires Shape(vm) && 0 <= vp < |vm.spaces[vm.current].table| && 0 <= f < NUM_FRAMES
  {
    var sp := vm.spaces[vm.current];
    assert SpaceOk(sp);
    var vm' := SetEntry(vm, vp, sp.table[vp].(physicalPage := f, valid := true));
    vm'.(
      used := vm.used + {f},
      owner := vm.owner[f := vm.current],
      page := vm.page[f := vp],
      memory := Splice(vm.memory, Start(f), sp.swap[Start(vp)..Start(vp) + 256]))
  }

  function Created(vm: Vm, id: Pid, image: seq<Byte>): Vm {
    vm.(spaces := vm.spaces[id := Fresh(image)])
  }

  function Switched(vm: Vm, id: Pid): Vm {
    vm.(current := id)
  }

  // ---- and what they do to the program's view ----

  lemma {:induction false} TouchedKeeps(vm: Vm, addr: Word, writing: bool)
    requires Inv(vm) && PageOf(addr) < |vm.spaces[vm.current].table|
    ensures Inv(Touched(vm, addr, writing))
  {
    var vm' := Touched(vm, addr, writing);
    forall id, vp | id in vm'.spaces && 0 <= vp < |vm'.spaces[id].table|
      ensures PageOk(vm', id, vp)
    {
      assert PageOk(vm, id, vp);
    }
    forall f | f in vm'.used
      ensures FrameOk(vm', f)
    {
      assert FrameOk(vm, f);
    }
  }

  lemma {:induction false} MemoryKeeps(vm: Vm, memory: seq<Byte>)
    requires Inv(vm) && |memory| == MEMORY_SIZE
    ensures Inv(vm.(memory := memory))
  {
    var vm' := vm.(memory := memory);
    forall id, vp | id in vm'.spaces && 0 <= vp < |vm'.spaces[id].table|
      ensures PageOk(vm', id, vp)
    {
      assert PageOk(vm, id, vp);
    }
    forall f | f in vm'.used
      ensures FrameOk(vm', f)
    {
      assert FrameOk(vm, f);
    }
  }

  /** Use and dirty bits are no part of what the program sees. */
  lemma {:induction false} TouchedView(vm: Vm, addr: Word, writing: bool, id: Pid, a: int)
    requires Inv(vm) && PageOf(addr) < |vm.spaces[vm.current].table| && Mapped(vm, id, a)
    ensures Inv(Touched(vm, addr, writing)) && Mapped(Touched(vm, addr, writing), id, a)
    ensures At(Touched(vm, addr, writing), id, a) == At(vm, id, a)
  {
    TouchedKeeps(vm, addr, writing);
  }

  lemma {:induction false} WrittenKeeps(vm: Vm, addr: Word, size: int, value: Word)
    requires Inv(vm) && IsSize(size) && Check(vm, addr, size, true) == NoException
    ensures Inv(Written(vm, addr, size, value))
  {
    InFrame(vm, addr, size, true);
    TouchedKeeps(vm, addr, true);
    MemoryKeeps(Touched(vm, addr, true), Splice(vm.memory, Physical(vm, addr), Encoded(value, size)));
  }

  /** A stretch of bytes within page or frame `f` meets page or frame `g` only if they are the same. */
  lemma {:induction false} FramesApart(f: int, o: int, size: int, g: int, p: int)
    requires 0 <= o && o + size <= 256 && 0 <= p < 256
    ensures Start(f) + o <= Start(g) + p < Start(f) + o + size <==> f == g && o <= p < o + size
  {}

  /** Where the byte at `a` is in memory, if its page is there. */
  function PlaceOf(vm: Vm, id: Pid, a: int): int
    requires Mapped(vm, id, a)
  {
    Start(Entry(vm, id, PageOf(a)).physicalPage) + OffsetOf(a)
  }

  lemma {:induction false} PlacesApart(vm: Vm, addr: Word, size: int, id: Pid, a: int)
    requires Inv(vm) && IsSize(size) && Check(vm, addr, size, true) == NoException && Mapped(vm, id, a) && Entry(vm, id, PageOf(a)).valid
    ensures var p, q := Physical(vm, addr), PlaceOf(vm, id, a);
      && 0 <= q < MEMORY_SIZE && (p <= q < p + size <==> id == vm.current && addr <= a < addr + size)
      && (id == vm.current && addr <= a < addr + size ==> q - p == a - addr)
  {
    InFrame(vm, addr, size, true);
    var e, g := Entry(vm, id, PageOf(a)), Entry(vm, vm.current, PageOf(addr)).physicalPage;
    assert PageOk(vm, id, PageOf(a)) && PageOk(vm, vm.current, PageOf(addr));
    FramesApart(g, OffsetOf(addr), size, e.physicalPage, OffsetOf(a));
    FramesApart(PageOf(addr), OffsetOf(addr), size, PageOf(a), OffsetOf(a));
    if e.physicalPage == g {
      NoSharing(vm, id, PageOf(a), vm.current, PageOf(addr));
    }
  }

  lemma {:induction false} SplicedByte(m: seq<Byte>, p: int, data: seq<Byte>, q: int)
    requires 0 <= p && p + |data| <= |m| && 0 <= q < |m|
    ensures Splice(m, p, data)[q] == if p <= q < p + |data| then data[q - p] else m[q]
  {}

  /** A write changes its own bytes in the running program's space, and nothing else anywhere. */
  lemma {:induction false} WrittenView(vm: Vm, addr: Word, size: int, value: Word, id: Pid, a: int)
    requires Inv(vm) && IsSize(size) && Check(vm, addr, size, true) == NoException && Mapped(vm, id, a)
    ensures Inv(Written(vm, addr, size, value)) && Mapped(Written(vm, addr, size, value), id, a)
    ensures At(Written(vm, addr, size, value), id, a) ==
      if id == vm.current && addr <= a < addr + size then Encoded(value, size)[a - addr] else At(vm, id, a)
  {
    InFrame(vm, addr, size, true);
    WrittenKeeps(vm, addr, size, value);
    if Entry(vm, id, PageOf(a)).valid {
      PlacesApart(vm, addr, size, id, a);
      SplicedByte(vm.memory, Physical(vm, addr), Encoded(value, size), PlaceOf(vm, id, a));
    } else {
      NotWritten(vm, addr, size, id, a);
    }
  }

  lemma {:induction false} NotWritten(vm: Vm, addr: Word, size: int, id: Pid, a: int)
    requires Inv(vm) && IsSize(size) && Check(vm, addr, size, true) == NoException && Mapped(vm, id, a) && !Entry(vm, id, PageOf(a)).valid
    ensures !(id == vm.current && addr <= a < addr + size)
  {
    InFrame(vm, addr, size, true);
    FramesApart(PageOf(addr), OffsetOf(addr), size, PageOf(a), OffsetOf(a));
  }

  function ByteAt(vm: Vm, id: Pid, a: int): Byte
    requires Inv(vm)
  {
    if Mapped(vm, id, a) then At(vm, id, a) else 0
  }

  /** The last of `n` addresses from `a` on. */
  function Last(a: int, n: nat): (l: int)
    ensures l == a + n - 1
  {
    a + n - 1
  }

  /** The bytes that a program sees at `a`. */
  function Visible(vm: Vm, id: Pid, a: int, n: nat): (b: seq<Byte>)
    requires Inv(vm)
    ensures |b| == n
  {
    if n == 0 then [] else Visible(vm, id, a, n - 1) + [ByteAt(vm, id, Last(a, n))]
  }

  /** A read gives the number that the bytes the program sees stand for. */
  lemma {:induction false} ReadBytes(vm: Vm, addr: Word, size: int)
    requires Inv(vm) && IsSize(size) && Check(vm, addr, size, false) == NoException
    ensures ReadValue(vm, addr, size) == Widened(LittleEndian(Visible(vm, vm.current, addr, size)), size)
  {
    InFrame(vm, addr, size, false);
    MemoryBytes(vm, addr, size, size);
    DecodedMeaning(Visible(vm, vm.current, addr, size));
  }

  lemma {:induction false} MemoryBytes(vm: Vm, addr: Word, size: int, n: nat)
    requires Inv(vm) && IsSize(size) && Check(vm, addr, size, false) == NoException && n <= size
    ensures 0 <= Physical(vm, addr) && Physical(vm, addr) + size <= MEMORY_SIZE
    ensures vm.memory[Physical(vm, addr)..Physical(vm, addr) + n] == Visible(vm, vm.current, addr, n)
  {
    InFrame(vm, addr, size, false);
    if n > 0 {
      MemoryBytes(vm, addr, size, n - 1);
      ReadView(vm, addr, size, n - 1, Last(addr, n));
      SliceNext(vm.memory, Physical(vm, addr), n);
    }
  }

  lemma {:induction false} SliceNext(m: seq<Byte>, p: int, n: nat)
    requires 0 <= p && 0 < n && p + n <= |m|
    ensures m[p..p + n] == m[p..p + n - 1] + [m[p + n - 1]]
  {}

  lemma {:induction false} ReadView(vm: Vm, addr: Word, size: int, i: int, a: int)
    requires Inv(vm) && IsSize(size) && Check(vm, addr, size, false) == NoException && 0 <= i < size && a == addr + i
    ensures Mapped(vm, vm.current, a) && 0 <= Physical(vm, addr) && Physical(vm, addr) + size <= MEMORY_SIZE
    ensures vm.memory[Physical(vm, addr) + i] == At(vm, vm.current, a)
  {
    InFrame(vm, addr, size, false);
    assert PageOf(a) == PageOf(addr);
    assert PageOk(vm, vm.current, PageOf(addr));
  }

  lemma {:induction false} PagedInKeeps(vm: Vm, vp: int, f: int)
    requires Inv(vm) && 0 <= vp < |vm.spaces[vm.current].table| && !Entry(vm, vm.current, vp).valid
    requires 0 <= f < NUM_FRAMES && f !in vm.used
    ensures Inv(PagedIn(vm, vp, f))
  {
    var vm' := PagedIn(vm, vp, f);
    forall id, p | id in vm'.spaces && 0 <= p < |vm'.spaces[id].table|
      ensures PageOk(vm', id, p)
    {
      assert PageOk(vm, id, p);
    }
    forall g | g in vm'.used
      ensures FrameOk(vm', g)
    {
      if g != f {
        assert FrameOk(vm, g);
      }
    }
  }

  /** Serving a page fault changes no byte that any program sees. */
  lemma {:induction false} PagedInView(vm: Vm, vp: int, f: int, id: Pid, a: int)
    requires Inv(vm) && 0 <= vp < |vm.spaces[vm.current].table| && !Entry(vm, vm.current, vp).valid
    requires 0 <= f < NUM_FRAMES && f !in vm.used && Mapped(vm, id, a)
    ensures Inv(PagedIn(vm, vp, f)) && Mapped(PagedIn(vm, vp, f), id, a)
    ensures At(PagedIn(vm, vp, f), id, a) == At(vm, id, a)
  {
    PagedInKeeps(vm, vp, f);
    assert PageOk(vm, id, PageOf(a));
  }

  lemma {:induction false} CreatedKeeps(vm: Vm, id: Pid, image: seq<Byte>)
    requires Inv(vm) && id !in vm.spaces && |image| % 256 == 0 && |image| <= 0x8000_0000
    ensures Inv(Created(vm, id, image))
  {
    var vm' := Created(vm, id, image);
    forall i, vp | i in vm'.spaces && 0 <= vp < |vm'.spaces[i].table|
      ensures PageOk(vm', i, vp)
    {
      if i != id {
        assert PageOk(vm, i, vp);
      }
    }
    forall f | f in vm'.used
      ensures FrameOk(vm', f)
    {
      assert FrameOk(vm, f);
    }
  }

  lemma {:induction false} SwitchedKeeps(vm: Vm, id: Pid)
    requires Inv(vm) && id in vm.spaces
    ensures Inv(Switched(vm, id))
  {
    var vm' := Switched(vm, id);
    forall i, vp | i in vm'.spaces && 0 <= vp < |vm'.spaces[i].table|
      ensures PageOk(vm', i, vp)
    {
      assert PageOk(vm, i, vp);
    }
    forall f | f in vm'.used
      ensures FrameOk(vm', f)
    {
      assert FrameOk(vm, f);
    }
  }

  /** The least free frame, or -1. */
  function FreeFrame(used: set<int>, from: nat): (f: int)
    requires from <= NUM_FRAMES
    ensures f == -1 || (from <= f < NUM_FRAMES && f !in used)
    ensures f == -1 ==> forall g :: from <= g < NUM_FRAMES ==> g in used
    ensures f != -1 ==> forall g :: from <= g < f ==> g in used
    decreases NUM_FRAMES - from
  {
    if from == NUM_FRAMES then -1 else if from !in used then from else FreeFrame(used, from + 1)
  }

  // ---- whole runs ----

  /**
   * Memory accesses of the running program, and the kernel's part: programs started, and the CPU given to one.
   * An access that faults is served, if a frame is free, and made again.
   */
  datatype Event =
    | Create(id: Pid, image: seq<Byte>)
    | Switch(id: Pid)
    | Read(addr: Word, size: int)
    | Write(addr: Word, size: int, value: Word)

  /** Serve the page fault at `addr`, if there is one. */
  function Served(vm: Vm, addr: Word, size: int, writing: bool): Vm
    requires Inv(vm)
  {
    if Check(vm, addr, size, writing) == PageFault && FreeFrame(vm.used, 0) != -1 then
      PagedIn(vm, PageOf(addr), FreeFrame(vm.used, 0))
    else
      vm
  }

  lemma {:induction false} ServedKeeps(vm: Vm, addr: Word, size: int, writing: bool)
    requires Inv(vm)
    ensures Inv(Served(vm, addr, size, writing)) && Served(vm, addr, size, writing).current == vm.current
    ensures FreeFrame(vm.used, 0) != -1 ==> Check(Served(vm, addr, size, writing), addr, size, writing) != PageFault
  {
    if Check(vm, addr, size, writing) == PageFault && FreeFrame(vm.used, 0) != -1 {
      PagedInKeeps(vm, PageOf(addr), FreeFrame(vm.used, 0));
    }
  }

  lemma {:induction false} ServedView(vm: Vm, addr: Word, size: int, writing: bool, id: Pid, a: int)
    requires Inv(vm) && Mapped(vm, id, a)
    ensures Inv(Served(vm, addr, size, writing)) && Mapped(Served(vm, addr, size, writing), id, a)
    ensures At(Served(vm, addr, size, writing), id, a) == At(vm, id, a)
  {
    if Check(vm, addr, size, writing) == PageFault && FreeFrame(vm.used, 0) != -1 {
      PagedInView(vm, PageOf(addr), FreeFrame(vm.used, 0), id, a);
    }
  }

  predicate Enabled(vm: Vm, e: Event) {
    match e
    case Create(id, image) => id !in vm.spaces && |image| % 256 == 0 && |image| <= 0x8000_0000
    case Switch(id) => id in vm.spaces
    case Read(_, size) => IsSize(size)
    case Write(_, size, _) => IsSize(size)
  }

  /** The access, made again after a page fault has been served, goes through. */
  predicate Goes(vm: Vm, addr: Word, size: int, writing: bool)
    requires Inv(vm)
  {
    ServedKeeps(vm, addr, size, writing);
    Check(Served(vm, addr, size, writing), addr, size, writing) == NoException
  }

  /** Which accesses go through, said of the page table and the frames before any fault is taken. */
  lemma {:induction false} GoesExactly(vm: Vm, addr: Word, size: int, writing: bool)
    requires Inv(vm)
    ensures Goes(vm, addr, size, writing) <==>
      && Aligned(addr, size)
      && PageOf(addr) < |vm.spaces[vm.current].table|
      && var e := Entry(vm, vm.current, PageOf(addr));
         (e.valid || FreeFrame(vm.used, 0) != -1) && !(e.readOnly && writing)
  {
    ServedKeeps(vm, addr, size, writing);
    NoBusError(Served(vm, addr, size, writing), addr, size, writing);
  }

  function Next(vm: Vm, e: Event): (vm': Vm)
    requires Inv(vm) && Enabled(vm, e)
    ensures Inv(vm')
  {
    match e
    case Create(id, image) =>
      CreatedKeeps(vm, id, image);
      Created(vm, id, image)
    case Switch(id) =>
      SwitchedKeeps(vm, id);
      Switched(vm, id)
    case Read(addr, size) =>
      ServedKeeps(vm, addr, size, false);
      if Goes(vm, addr, size, false) then
        TouchedKeeps(Served(vm, addr, size, false), addr, false);
        Touched(Served(vm, addr, size, false), addr, false)
      else
        Served(vm, addr, size, false)
    case Write(addr, size, value) =>
      ServedKeeps(vm, addr, size, true);
      if Goes(vm, addr, size, true) then
        WrittenKeeps(Served(vm, addr, size, true), addr, size, value);
        Written(Served(vm, addr, size, true), addr, size, value)
      else
        Served(vm, addr, size, true)
  }

  /** Before anything has run: every page is in its swap file and every frame is free. */
  predicate Untouched(vm: Vm) {
    Shape(vm) && vm.used == {} && forall id :: id in vm.spaces ==> NoneValid(vm.spaces[id])
  }

  predicate NoneValid(sp: Space) {
    forall vp :: 0 <= vp < |sp.table| ==> !sp.table[vp].valid
  }

  predicate Run(vm0: Vm, events: seq<Event>)
    requires Untouched(vm0)
    decreases |events|, 0
  {
    if events == [] then true
    else
      var n := |events| - 1;
      Run(vm0, events[..n]) && Enabled(After(vm0, events[..n]), events[n])
  }

  /** After every run the tables, the frame map and the inverted page table agree. */
  function After(vm0: Vm, events: seq<Event>): (vm: Vm)
    requires Untouched(vm0) && Run(vm0, events)
    ensures Inv(vm)
    decreases |events|, 1
  {
    if events == [] then
      assert forall id :: id in vm0.spaces ==> NoneValid(vm0.spaces[id]);
      vm0
    else
      var n := |events| - 1;
      Next(After(vm0, events[..n]), events[n])
  }

  /** One event's effect on one byte of one program, without any paging. */
  function ByteAfter(vm: Vm, e: Event, id: Pid, a: int, before: Byte): Byte
    requires Inv(vm) && Enabled(vm, e)
  {
    match e
    case Create(id', image) => if id == id' && 0 <= a < |image| then image[a] else before
    case Write(addr, size, value) =>
      if Goes(vm, addr, size, true) && id == vm.current && addr <= a < addr + size then Encoded(value, size)[a - addr] else before
    case _ => before
  }

  /** The last byte written at `a` in space `id`, or else the byte of its swap file. */
  function Latest(vm0: Vm, events: seq<Event>, id: Pid, a: int): Byte
    requires Untouched(vm0) && Run(vm0, events)
  {
    if events == [] then
      (if id in vm0.spaces && 0 <= a < |vm0.spaces[id].swap| then vm0.spaces[id].swap[a] else 0)
    else
      var n := |events| - 1;
      ByteAfter(After(vm0, events[..n]), events[n], id, a, Latest(vm0, events[..n], id, a))
  }

  lemma {:induction false} CreatedView(vm: Vm, id: Pid, image: seq<Byte>, i: Pid, a: int)
    requires Inv(vm) && id !in vm.spaces && |image| % 256 == 0 && |image| <= 0x8000_0000 && Mapped(Created(vm, id, image), i, a)
    ensures Inv(Created(vm, id, image))
    ensures i == id ==> a < |image| && At(Created(vm, id, image), i, a) == image[a]
    ensures i != id ==> Mapped(vm, i, a) && At(Created(vm, id, image), i, a) == At(vm, i, a)
  {
    CreatedKeeps(vm, id, image);
    if i != id {
      assert PageOk(vm, i, PageOf(a));
    }
  }

  lemma {:induction false} SwitchedView(vm: Vm, id: Pid, i: Pid, a: int)
    requires Inv(vm) && id in vm.spaces && Mapped(vm, i, a)
    ensures Inv(Switched(vm, id)) && At(Switched(vm, id), i, a) == At(vm, i, a)
  {
    SwitchedKeeps(vm, id);
    assert PageOk(vm, i, PageOf(a));
  }

  lemma {:induction false} NextView(vm: Vm, e: Event, id: Pid, a: int, before: Byte)
    requires Inv(vm) && Enabled(vm, e) && Mapped(Next(vm, e), id, a)
    requires Mapped(vm, id, a) ==> before == At(vm, id, a)
    ensures At(Next(vm, e), id, a) == ByteAfter(vm, e, id, a, before)
  {
    match e
    case Create(i, image) =>
      CreatedView(vm, i, image, id, a);
    case Switch(i) =>
      SwitchedView(vm, i, id, a);
    case Read(addr, size) =>
      ServedView(vm, addr, size, false, id, a);
      if Goes(vm, addr, size, false) {
        TouchedView(Served(vm, addr, size, false), addr, false, id, a);
      }
    case Write(addr, size, value) =>
      ServedView(vm, addr, size, true, id, a);
      if Goes(vm, addr, size, true) {
        WrittenView(Served(vm, addr, size, true), addr, size, value, id, a);
      }
  }

  /**
   * Demand paging is invisible: after every run of accesses, page faults, program starts and context switches,
   * every byte of every program is the last one written there, else the one in the swap file.
   */
  lemma {:induction false} PagingInvisible(vm0: Vm, events: seq<Event>, id: Pid, a: int)
    requires Untouched(vm0) && Run(vm0, events) && Mapped(After(vm0, events), id, a)
    ensures At(After(vm0, events), id, a) == Latest(vm0, events, id, a)
  {
    var vm := After(vm0, events);
    if events == [] {
      assert NoneValid(vm0.spaces[id]) && SpaceOk(vm0.spaces[id]);
    } else {
      var n := |events| - 1;
      var prior := After(vm0, events[..n]);
      if Mapped(prior, id, a) {
        PagingInvisible(vm0, events[..n], id, a);
      }
      NextView(prior, events[n], id, a, Latest(vm0, events[..n], id, a));
    }
  }

  function LatestBytes(vm0: Vm, events: seq<Event>, id: Pid, a: int, n: nat): (b: seq<Byte>)
    requires Untouched(vm0) && Run(vm0, events)
  {
    if n == 0 then [] else LatestBytes(vm0, events, id, a, n - 1) + [Latest(vm0, events, id, Last(a, n))]
  }

  lemma {:induction false} BytesLatest(vm0: Vm, events: seq<Event>, id: Pid, a: int, n: nat)
    requires Untouched(vm0) && Run(vm0, events)
    requires n > 0 ==> 0 <= a && Mapped(After(vm0, events), id, Last(a, n))
    ensures Visible(After(vm0, events), id, a, n) == LatestBytes(vm0, events, id, a, n)
  {
    if n > 0 {
      MappedBelow(After(vm0, events), id, a, n);
      BytesLatest(vm0, events, id, a, n - 1);
      PagingInvisible(vm0, events, id, Last(a, n));
    }
  }

  lemma {:induction false} MappedBelow(vm: Vm, id: Pid, a: int, n: nat)
    requires n > 0 && 0 <= a && Mapped(vm, id, Last(a, n))
    ensures n > 1 ==> Mapped(vm, id, Last(a, n - 1))
  {}

  /** So a successful `ReadMem`, the page fault before it included, returns the number last written. */
  lemma {:induction false} ReadReturnsLatest(vm0: Vm, events: seq<Event>, addr: Word, size: int)
    requires Untouched(vm0) && Run(vm0, events) && IsSize(size) && Goes(After(vm0, events), addr, size, false)
    ensures var vm := Served(After(vm0, events), addr, size, false);
      Inv(vm) && ReadValue(vm, addr, size) == Widened(LittleEndian(LatestBytes(vm0, events, After(vm0, events).current, addr, size)), size)
  {
    var before := After(vm0, events);
    ServedKeeps(before, addr, size, false);
    ReadBytes(Served(before, addr, size, false), addr, size);
    InFrame(Served(before, addr, size, false), addr, size, false);
    ServedMapped(before, addr, size, false, addr + size - 1);
    ServedBytes(before, addr, size, false, addr, size);
    BytesLatest(vm0, events, before.current, addr, size);
  }

  lemma {:induction false} ServedMapped(vm: Vm, addr: Word, size: int, writing: bool, a: int)
    requires Inv(vm) && Mapped(Served(vm, addr, size, writing), vm.current, a)
    ensures Mapped(vm, vm.current, a)
  {}

  lemma {:induction false} ServedBytes(vm: Vm, addr: Word, size: int, writing: bool, a: int, n: nat)
    requires Inv(vm) && (n > 0 ==> 0 <= a && Mapped(vm, vm.current, Last(a, n)))
    ensures Inv(Served(vm, addr, size, writing))
    ensures Visible(Served(vm, addr, size, writing), vm.current, a, n) == Visible(vm, vm.current, a, n)
  {
    ServedKeeps(vm, addr, size, writing);
    if n > 0 {
      MappedBelow(vm, vm.current, a, n);
      ServedBytes(vm, addr, size, writing, a, n - 1);
      ServedView(vm, addr, size, writing, vm.current, Last(a, n));
    }
  }
}
