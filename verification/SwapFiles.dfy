/**
 * The swap files behind demand paging, as files of the file system: an address space's image is written to a file
 * named after its thread when the space is made, and a page fault opens that file by name and reads the page
 * from it. On a consistent disk that comes to what `Paging` says of an image kept aside.
 */
module SwapFiles {
  import opened Bytes
  import opened Options
  import opened FileImage
  import opened OpenFiles
  import opened Directories
  import opened DiskLayout
  import opened DiskSteps
  import opened FileSystems
  import Paging
  import opened PagedMachine

  // ---- the name of a swap file ----

  /** `%d`, for a thread ID. */
  function Decimal(n: nat): (s: seq<Byte>)
    ensures s != [] && forall k :: 0 <= k < |s| ==> 48 <= s[k] <= 57
  {
    if n < 10 then [48 + n] else Decimal(n / 10) + [48 + n % 10]
  }

  /** `%d.swap` */
  function SwapName(id: nat): CString {
    Decimal(id) + [46, 115, 119, 97, 112]
  }

  lemma {:induction false} DecimalInjective(a: nat, b: nat)
    requires Decimal(a) == Decimal(b)
    ensures a == b
  {
    var s, t := Decimal(a), Decimal(b);
    assert s[|s| - 1] == t[|t| - 1] && s[..|s| - 1] == t[..|t| - 1];
    if a >= 10 && b >= 10 {
      assert s[..|s| - 1] == Decimal(a / 10) && t[..|t| - 1] == Decimal(b / 10);
      DecimalInjective(a / 10, b / 10);
    }
  }

  function Ten(d: nat): nat {
    if d == 0 then 1 else 10 * Ten(d - 1)
  }

  lemma {:induction false} DecimalLength(n: nat, d: nat)
    requires d > 0
    ensures |Decimal(n)| <= d <==> n < Ten(d)
  {
    if d == 1 {
      assert Ten(1) == 10 * Ten(0);
    } else {
      DecimalLength(n / 10, d - 1);
      TenTimes(n, d);
    }
  }

  lemma {:induction false} TenTimes(n: nat, d: nat)
    requires d > 1
    ensures n / 10 < Ten(d - 1) <==> n < Ten(d)
    ensures Ten(d) >= 10
  {
    TenPositive(d - 1);
  }

  lemma {:induction false} TenPositive(d: nat)
    ensures Ten(d) > 0
  {
    if d > 0 {
      TenPositive(d - 1);
    }
  }

  /**
   * Only the first nine characters of a name count. Two threads share a swap file exactly if their IDs have nine
   * digits or more and start with the same nine: a shorter one ends in a dot where the other has a digit.
   */
  lemma {:induction false} SwapNamesMeet(a: nat, b: nat)
    requires a != b
    ensures Key(SwapName(a)) == Key(SwapName(b)) <==>
      |Decimal(a)| >= 9 && |Decimal(b)| >= 9 && Decimal(a)[..9] == Decimal(b)[..9]
  {
    var s, t := Decimal(a), Decimal(b);
    if |s| >= 9 && |t| >= 9 {
      assert Key(SwapName(a)) == s[..9] && Key(SwapName(b)) == t[..9];
    } else if |s| <= |t| {
      ShorterApart(a, b);
    } else {
      ShorterApart(b, a);
    }
  }

  lemma {:induction false} ShorterApart(a: nat, b: nat)
    requires a != b && |Decimal(a)| < 9 && |Decimal(a)| <= |Decimal(b)|
    ensures Key(SwapName(a)) != Key(SwapName(b))
  {
    var s, t := Decimal(a), Decimal(b);
    var m := |s|;
    assert Key(SwapName(a))[m] == 46 && Key(SwapName(b))[m] == SwapName(b)[m];
    if |t| == m {
      if s == t {
        DecimalInjective(a, b);
      }
      var k :| 0 <= k < m && s[k] != t[k];
      assert Key(SwapName(a))[k] == s[k] && Key(SwapName(b))[k] == t[k];
    } else {
      assert SwapName(b)[m] == t[m];
    }
  }

  /** In particular, not with IDs below a thousand million. */
  lemma {:induction false} SwapNamesApart(a: nat, b: nat)
    requires a < 1_000_000_000 && b < 1_000_000_000 && a != b
    ensures Key(SwapName(a)) != Key(SwapName(b))
  {
    DecimalLength(a, 9);
    DecimalLength(b, 9);
    Billion();
    SwapNamesMeet(a, b);
    if Decimal(a) == Decimal(b) {
      DecimalInjective(a, b);
    }
    assert |Decimal(a)| == 9 ==> Decimal(a)[..9] == Decimal(a);
    assert |Decimal(b)| == 9 ==> Decimal(b)[..9] == Decimal(b);
  }

  lemma {:induction false} Billion()
    ensures Ten(9) == 1_000_000_000
  {
    assert Ten(3) == 1000;
    assert Ten(6) == 1_000_000;
  }

  // ---- every space has its image in its swap file ----

  /** The images that a machine's spaces started from. */
  function Swaps(vm: Paging.Vm): map<Paging.Pid, seq<Byte>> {
    map id | id in vm.spaces :: vm.spaces[id].swap
  }

  /** The swap file of thread `id`. */
  ghost predicate Holds(d: Image, id: Paging.Pid, swap: seq<Byte>) {
    Consistent(d) && Contents(d, SwapName(id)) == Some(swap)
  }

  ghost predicate OnDisk(d: Image, swaps: map<Paging.Pid, seq<Byte>>) {
    Consistent(d) && forall id :: id in swaps ==> id < 1_000_000_000 && Holds(d, id, swaps[id])
  }

  ghost predicate Backed(vm: Paging.Vm, d: Image) {
    OnDisk(d, Swaps(vm))
  }

  lemma {:induction false} EntryKeepsSwaps(vm: Paging.Vm, vp: int, e: Paging.Translation)
    requires vm.current in vm.spaces && 0 <= vp < |vm.spaces[vm.current].table|
    ensures Swaps(Paging.SetEntry(vm, vp, e)) == Swaps(vm)
  {}

  lemma {:induction false} ServedKeepsSwaps(vm: Paging.Vm, addr: Word, size: int, writing: bool)
    requires Paging.Inv(vm)
    ensures Swaps(Paging.Served(vm, addr, size, writing)) == Swaps(vm)
  {
    if Paging.Check(vm, addr, size, writing) == Paging.PageFault {
      var vp, f := Paging.PageOf(addr), Paging.FreeFrame(vm.used, 0);
      EntryKeepsSwaps(vm, vp, vm.spaces[vm.current].table[vp].(physicalPage := f, valid := true));
    }
  }

  lemma {:induction false} TouchedKeepsSwaps(vm: Paging.Vm, addr: Word, writing: bool)
    requires vm.current in vm.spaces && Paging.PageOf(addr) < |vm.spaces[vm.current].table|
    ensures Swaps(Paging.Touched(vm, addr, writing)) == Swaps(vm)
  {}

  /** Paging reads swap files and never writes them. */
  lemma {:induction false} NextKeepsSwaps(vm: Paging.Vm, e: Paging.Event)
    requires Paging.Inv(vm) && Paging.Enabled(vm, e)
    ensures Swaps(Paging.Next(vm, e)) == if e.Create? then Swaps(vm)[e.id := e.image] else Swaps(vm)
  {
    match e
    case Create(id, image) =>
    case Switch(id) =>
    case Read(addr, size) =>
      ServedKeepsSwaps(vm, addr, size, false);
      if Paging.Goes(vm, addr, size, false) {
        TouchedKeepsSwaps(Paging.Served(vm, addr, size, false), addr, false);
      }
    case Write(addr, size, value) =>
      ServedKeepsSwaps(vm, addr, size, true);
      if Paging.Goes(vm, addr, size, true) {
        TouchedKeepsSwaps(Paging.Served(vm, addr, size, true), addr, true);
      }
  }

  /** So the swap files go on backing the spaces through every access, page fault and switch. */
  lemma {:induction false} NextBacked(vm: Paging.Vm, e: Paging.Event, d: Image)
    requires Paging.Inv(vm) && Paging.Enabled(vm, e) && !e.Create? && Backed(vm, d)
    ensures Backed(Paging.Next(vm, e), d)
  {
    NextKeepsSwaps(vm, e);
  }

  lemma {:induction false} BackedCurrent(vm: Paging.Vm, d: Image)
    requires Backed(vm, d) && vm.current in vm.spaces
    ensures Holds(d, vm.current, vm.spaces[vm.current].swap)
  {
    assert vm.current in Swaps(vm);
  }

  // ---- serving a page fault ----

  /** `PageFaultException`, with the page read from the file that bears the thread's name. */
  method HandlePageFault(machine: Machine, fileSystem: FileSystem, badVAddr: Word, ghost size: int, ghost writing: bool)
    requires machine.Valid() && Paging.Check(machine.View(), badVAddr, size, writing) == Paging.PageFault
    requires fileSystem.Valid() && Holds(fileSystem.disk.sectors, machine.current, machine.spaces[machine.current].swap)
    modifies machine, machine.mainMemory, machine.frames, machine.frames.words, machine.IPT, machine.IPT_VP
    ensures machine.Valid() && machine.View() == Paging.Served(old(machine.View()), badVAddr, size, writing)
  {
    ServedBy(machine.View(), badVAddr, size, writing);
    ServePage(machine, fileSystem, badVAddr / 256);
  }

  /** The page is put into the least free frame, if there is one. */
  function ServedPage(vm: Paging.Vm, vp: int): Paging.Vm
    requires Paging.Shape(vm) && 0 <= vp < |vm.spaces[vm.current].table|
  {
    var f := Paging.FreeFrame(vm.used, 0);
    if f == -1 then vm else Paging.PagedIn(vm, vp, f)
  }

  lemma {:induction false} ServedBy(vm: Paging.Vm, addr: Word, size: int, writing: bool)
    requires Paging.Inv(vm) && Paging.Check(vm, addr, size, writing) == Paging.PageFault
    ensures 0 <= addr / 256 < |vm.spaces[vm.current].table|
    ensures Paging.Inv(Paging.Served(vm, addr, size, writing)) && Paging.Served(vm, addr, size, writing) == ServedPage(vm, addr / 256)
  {
    Paging.ServedKeeps(vm, addr, size, writing);
  }

  method ServePage(machine: Machine, fileSystem: FileSystem, badVpage: int)
    requires machine.Sound() && Paging.Shape(machine.View()) && 0 <= badVpage < |machine.spaces[machine.current].table|
    requires fileSystem.Valid() && Holds(fileSystem.disk.sectors, machine.current, machine.spaces[machine.current].swap)
    modifies machine, machine.mainMemory, machine.frames, machine.frames.words, machine.IPT, machine.IPT_VP
    ensures machine.Sound() && machine.View() == ServedPage(old(machine.View()), badVpage)
  {
    ghost var vm := machine.View();
    var freePage := machine.TakeFrame();
    if freePage != -1 {
      machine.FrameTaken(vm, badVpage, freePage);
      LoadNamed(machine, fileSystem, freePage, badVpage);
    }
  }

  method LoadNamed(machine: Machine, fileSystem: FileSystem, frame: int, vp: int)
    requires machine.Sound() && Paging.Shape(machine.View()) && frame in machine.frames.marked
    requires 0 <= frame < Paging.NUM_FRAMES && 0 <= vp < |machine.spaces[machine.current].table|
    requires fileSystem.Valid() && Holds(fileSystem.disk.sectors, machine.current, machine.spaces[machine.current].swap)
    modifies machine, machine.mainMemory, machine.IPT, machine.IPT_VP
    ensures machine.Sound() && machine.View() == Paging.PagedIn(old(machine.View()), vp, frame)
  {
    var executable := OpenSwap(fileSystem, machine.current, machine.spaces[machine.current].swap);
    LoadPage(machine, executable, frame, vp);
  }

  /** The swap file of a thread can always be opened. */
  method OpenSwap(fileSystem: FileSystem, id: Paging.Pid, ghost swap: seq<Byte>) returns (executable: OpenFile)
    requires fileSystem.Valid() && Holds(fileSystem.disk.sectors, id, swap)
    ensures fresh(executable) && executable.Valid() && executable.Contents() == swap
  {
    executable := fileSystem.Open(SwapName(id));
  }

  /** Put a page into a frame that has just been taken. */
  method LoadPage(machine: Machine, executable: OpenFile, frame: int, vp: int)
    requires machine.Sound() && Paging.Shape(machine.View()) && frame in machine.frames.marked
    requires 0 <= frame < Paging.NUM_FRAMES && 0 <= vp < |machine.spaces[machine.current].table|
    requires executable.Valid() && executable.Contents() == machine.spaces[machine.current].swap
    modifies machine, machine.mainMemory, machine.IPT, machine.IPT_VP
    ensures machine.Sound() && machine.View() == Paging.PagedIn(old(machine.View()), vp, frame)
  {
    machine.NoteFrame(frame, vp);
    ReadPage(machine, executable, frame, vp);
    machine.SetValid(frame, vp);
  }

  /** The page as the file has it, straight into its frame. */
  method ReadPage(machine: Machine, executable: OpenFile, frame: int, vp: int)
    requires machine.Sound() && Paging.Shape(machine.View())
    requires 0 <= frame < Paging.NUM_FRAMES && 0 <= vp < |machine.spaces[machine.current].table|
    requires executable.Valid() && executable.Contents() == machine.spaces[machine.current].swap
    modifies machine.mainMemory
    ensures machine.Sound() && Paging.SpaceOk(machine.spaces[machine.current])
    ensures var swap := machine.spaces[machine.current].swap;
            machine.mainMemory[..] == Splice(old(machine.mainMemory[..]), Paging.Start(frame), swap[Paging.Start(vp)..Paging.Start(vp) + 256])
  {
    assert Paging.SpaceOk(machine.spaces[machine.current]);
    assert machine.mainMemory.Length == |machine.mainMemory[..]|;
    var _ := executable.ReadAt(machine.mainMemory, frame * 256, 256, vp * 256);
  }

  // ---- making a space ----

  /** What the rest of a program's file, after its header of forty bytes, has of an image. */
  predicate LoadedFrom(image: seq<Byte>, program: seq<Byte>) {
    var k := Clamp(|image|, 40, |program|);
    k > 0 ==> image[..k] == program[40..40 + k]
  }

  /** A file created and then written over is the only one that changes. */
  lemma {:induction false} SwapWritten(d: Image, d1: Image, d2: Image, name: CString, size: int, i: int, s: int, h: Header, j: int, image: seq<Byte>, n: CString)
    requires Consistent(d) && Consistent(d1) && Created(d, d1, name, size, i, s, h)
    requires Wrote(d1, d2, j, image) && j == Index(Table(d1), name)
    ensures Consistent(d2) && Contents(d2, n) == if Key(n) == Key(name) then Some(image) else Contents(d, n)
  {
    WroteConsistent(d1, d2, j, image);
    WroteContents(d1, d2, j, image, n);
    MatchIsKey(Table(d1)[j], name);
    if Key(n) != Key(name) {
      CreatedOthers(d, d1, name, size, i, s, h, n);
    }
  }

  /** Creating the swap file leaves an open program file as it was. */
  lemma {:induction false} ProgramKept(d: Image, d1: Image, name: CString, size: int, i: int, s: int, h: Header, e: int)
    requires Consistent(d) && Created(d, d1, name, size, i, s, h) && 0 <= e < NUM_DIR_ENTRIES && Table(d)[e].inUse
    ensures FileBytes(d1, HeaderOf(d, e)) == FileBytes(d, HeaderOf(d, e))
  {
    UpdatedKeepsFile(d, d1, Table(d)[i := NewEntry(Table(d)[i], name, s)], Marked(d) + {s} + DataSet(h), {s}, e);
  }

  /** Create the swap file, open it, and copy the program's image into it through a buffer. */
  method MakeSwapFile(fileSystem: FileSystem, name: CString, size: int, executable: OpenFile, ghost e: int)
      returns (ok: bool, image: seq<Byte>)
    requires fileSystem.Valid() && 0 <= size <= MAX_FILE_SIZE
    requires executable.Valid() && executable.disk == fileSystem.disk
    requires 0 <= e < NUM_DIR_ENTRIES && Table(fileSystem.disk.sectors)[e].inUse && executable.hdr == HeaderOf(fileSystem.disk.sectors, e)
    modifies fileSystem.disk
    ensures fileSystem.Valid()
    ensures ok <==> CanCreate(Table(old(fileSystem.disk.sectors)), Marked(old(fileSystem.disk.sectors)), name, size)
    ensures !ok ==> fileSystem.disk.sectors == old(fileSystem.disk.sectors)
    ensures ok ==> |image| == size && LoadedFrom(image, old(executable.Contents()))
    ensures ok ==> OnlyFile(old(fileSystem.disk.sectors), fileSystem.disk.sectors, name, image)
  {
    ghost var d := fileSystem.disk.sectors;
    var success, i, s, h := fileSystem.Create(name, size);
    ok, image := success, [];
    if ok {
      ProgramKept(d, fileSystem.disk.sectors, name, size, i, s, h, e);
      image := FillNew(fileSystem, name, size, executable, FileBytes(d, executable.hdr), d, i, s, h);
    }
  }

  /** Only the file called `name` is other than it was. */
  ghost predicate OnlyFile(d: Image, d': Image, name: CString, image: seq<Byte>)
    requires Consistent(d) && Consistent(d')
  {
    forall n: CString :: Contents(d', n) == if Key(n) == Key(name) then Some(image) else Contents(d, n)
  }

  /** Fill the file that has just been created. */
  method FillNew(fileSystem: FileSystem, name: CString, size: nat, executable: OpenFile, ghost program: seq<Byte>,
                 ghost d: Image, ghost i: int, ghost s: int, ghost h: Header) returns (image: seq<Byte>)
    requires fileSystem.Valid() && Consistent(d) && Created(d, fileSystem.disk.sectors, name, size, i, s, h)
    requires executable.Valid() && executable.Contents() == program
    modifies fileSystem.disk
    ensures fileSystem.Valid() && OnlyFile(d, fileSystem.disk.sectors, name, image)
    ensures |image| == size && LoadedFrom(image, program)
  {
    ghost var d1 := fileSystem.disk.sectors;
    CreatedOwn(d, d1, name, size, i, s, h, name);
    ghost var j;
    image, j := FillSwapFile(fileSystem, name, size, executable, program);
    SwapWrittenAll(d, d1, fileSystem.disk.sectors, name, size, i, s, h, j, image);
  }

  lemma {:induction false} SwapWrittenAll(d: Image, d1: Image, d2: Image, name: CString, size: int, i: int, s: int, h: Header, j: int, image: seq<Byte>)
    requires Consistent(d) && Consistent(d1) && Created(d, d1, name, size, i, s, h)
    requires Wrote(d1, d2, j, image) && j == Index(Table(d1), name)
    ensures Consistent(d2) && OnlyFile(d, d2, name, image)
  {
    WroteConsistent(d1, d2, j, image);
    forall n: CString
      ensures Contents(d2, n) == if Key(n) == Key(name) then Some(image) else Contents(d, n)
    {
      SwapWritten(d, d1, d2, name, size, i, s, h, j, image, n);
    }
  }

  method FillSwapFile(fileSystem: FileSystem, name: CString, size: nat, executable: OpenFile, ghost program: seq<Byte>)
      returns (image: seq<Byte>, ghost j: int)
    requires fileSystem.Valid() && Contents(fileSystem.disk.sectors, name).Some? && |Contents(fileSystem.disk.sectors, name).value| == size
    requires executable.Valid() && executable.Contents() == program
    modifies fileSystem.disk
    ensures fileSystem.Valid() && |image| == size && LoadedFrom(image, program)
    ensures j == Index(Table(old(fileSystem.disk.sectors)), name) && Wrote(old(fileSystem.disk.sectors), fileSystem.disk.sectors, j, image)
  {
    var swapFile := fileSystem.Open(name);
    j := Index(Table(fileSystem.disk.sectors), name);
    ghost var d := fileSystem.disk.sectors;
    image := CopyImage(swapFile, size, executable, program);
    WroteConsistent(d, fileSystem.disk.sectors, j, image);
    WroteReads(d, fileSystem.disk.sectors, j, image);
  }

  /** Copy the image into the whole of a file, through a buffer. */
  method CopyImage(swapFile: OpenFile, size: nat, executable: OpenFile, ghost program: seq<Byte>) returns (image: seq<Byte>)
    requires swapFile.Valid() && swapFile.hdr.numBytes == size && executable.Valid() && executable.Contents() == program
    modifies swapFile.disk
    ensures swapFile.Valid() && |image| == size && LoadedFrom(image, program)
    ensures Rewrote(old(swapFile.disk.sectors), swapFile.disk.sectors, swapFile.hdr, image)
  {
    var buffer := new Byte[size];
    var k := executable.ReadAt(buffer, 0, size, 40);
    image := buffer[..];
    assert image[..size] == image;
    var n := swapFile.WriteAt(image, 0);
  }

  /** A new space with a new swap file: the other spaces keep theirs. */
  lemma {:induction false} OneSwapMore(d: Image, d': Image, swaps: map<Paging.Pid, seq<Byte>>, id: Paging.Pid, image: seq<Byte>)
    requires OnDisk(d, swaps) && Consistent(d') && OnlyFile(d, d', SwapName(id), image) && id !in swaps && id < 1_000_000_000
    ensures OnDisk(d', swaps[id := image])
  {
    var swaps' := swaps[id := image];
    forall other | other in swaps'
      ensures Holds(d', other, swaps'[other])
    {
      if other != id {
        SwapKept(d, d', id, image, other, swaps[other]);
      }
    }
  }

  lemma {:induction false} SwapKept(d: Image, d': Image, id: Paging.Pid, image: seq<Byte>, other: Paging.Pid, swap: seq<Byte>)
    requires Consistent(d) && Consistent(d') && OnlyFile(d, d', SwapName(id), image) && Holds(d, other, swap)
    requires id < 1_000_000_000 && other < 1_000_000_000 && id != other
    ensures Holds(d', other, swap)
  {
    SwapNamesApart(id, other);
  }

  /** The handle `executable` is open on entry `e` of the directory. */
  ghost predicate OpenedAt(executable: OpenFile, fileSystem: FileSystem, e: int)
    reads executable, fileSystem, fileSystem.disk, fileSystem.freeMapFile, fileSystem.directoryFile
  {
    && fileSystem.Valid() && executable.disk == fileSystem.disk && executable.Valid()
    && 0 <= e < NUM_DIR_ENTRIES && Table(fileSystem.disk.sectors)[e].inUse && executable.hdr == HeaderOf(fileSystem.disk.sectors, e)
  }

  /** One more swap file. */
  method AddSwap(fileSystem: FileSystem, id: Paging.Pid, size: nat, executable: OpenFile, ghost e: int, ghost swaps: map<Paging.Pid, seq<Byte>>)
      returns (ok: bool, image: seq<Byte>)
    requires OpenedAt(executable, fileSystem, e) && OnDisk(fileSystem.disk.sectors, swaps)
    requires id !in swaps && id < 1_000_000_000 && size <= MAX_FILE_SIZE
    modifies fileSystem.disk
    ensures fileSystem.Valid() && OnDisk(fileSystem.disk.sectors, if ok then swaps[id := image] else swaps)
    ensures ok <==> CanCreate(Table(old(fileSystem.disk.sectors)), Marked(old(fileSystem.disk.sectors)), SwapName(id), size)
    ensures !ok ==> fileSystem.disk.sectors == old(fileSystem.disk.sectors)
    ensures ok ==> |image| == size && LoadedFrom(image, old(executable.Contents()))
  {
    ghost var d := fileSystem.disk.sectors;
    ok, image := MakeSwapFile(fileSystem, SwapName(id), size, executable, e);
    if ok {
      OneSwapMore(d, fileSystem.disk.sectors, swaps, id, image);
    }
  }

  /** `AddrSpace`: make the swap file and the page table of thread `threadID`, from its program's file. */
  method CreateSpace(machine: Machine, fileSystem: FileSystem, threadID: nat, numPages: nat, executable: OpenFile, ghost e: int)
      returns (ok: bool, ghost image: seq<Byte>)
    requires machine.Valid() && threadID !in machine.spaces && threadID < 1_000_000_000 && numPages * 256 <= MAX_FILE_SIZE
    requires OpenedAt(executable, fileSystem, e) && Backed(machine.View(), fileSystem.disk.sectors)
    modifies machine, fileSystem.disk
    ensures machine.Valid() && fileSystem.Valid() && Backed(machine.View(), fileSystem.disk.sectors)
    ensures ok <==>
      CanCreate(Table(old(fileSystem.disk.sectors)), Marked(old(fileSystem.disk.sectors)), SwapName(threadID), numPages * 256)
    ensures !ok ==> machine.View() == old(machine.View()) && fileSystem.disk.sectors == old(fileSystem.disk.sectors)
    ensures ok ==>
      && |image| == numPages * 256 && LoadedFrom(image, old(executable.Contents()))
      && machine.View() == Paging.Created(old(machine.View()), threadID, image)
  {
    ghost var vm := machine.View();
    var bytes;
    ok, bytes := AddSwap(fileSystem, threadID, numPages * 256, executable, e, Swaps(vm));
    image := bytes;
    if ok {
      AddSpace(machine, fileSystem, threadID, bytes, numPages);
    }
  }

  /** The page table, with the file system looking on. */
  method AddSpace(machine: Machine, ghost fileSystem: FileSystem, id: Paging.Pid, image: seq<Byte>, ghost numPages: nat)
    requires machine.Valid() && id !in machine.spaces && |image| == numPages * 256 <= MAX_FILE_SIZE
    requires fileSystem.Valid() && OnDisk(fileSystem.disk.sectors, Swaps(machine.View())[id := image])
    modifies machine
    ensures machine.Valid() && machine.View() == Paging.Created(old(machine.View()), id, image)
    ensures fileSystem.Valid() && Backed(machine.View(), fileSystem.disk.sectors)
  {
    AddTable(machine, id, image, numPages);
  }

  method AddTable(machine: Machine, id: Paging.Pid, image: seq<Byte>, ghost numPages: nat)
    requires machine.Valid() && id !in machine.spaces && |image| == numPages * 256 <= MAX_FILE_SIZE
    modifies machine
    ensures machine.Valid() && machine.View() == Paging.Created(old(machine.View()), id, image)
    ensures Swaps(machine.View()) == Swaps(old(machine.View()))[id := image]
  {
    SpaceMade(machine.View(), id, image);
    machine.CreateSpace(id, image);
  }

  lemma {:induction false} SpaceMade(vm: Paging.Vm, id: Paging.Pid, image: seq<Byte>)
    requires Paging.Inv(vm) && id !in vm.spaces && |image| % 256 == 0 && |image| <= MAX_FILE_SIZE
    ensures Paging.Enabled(vm, Paging.Create(id, image)) && Swaps(Paging.Created(vm, id, image)) == Swaps(vm)[id := image]
  {}
}
