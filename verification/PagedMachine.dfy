/**
 * The simulated machine's memory as it is updated in place: a main memory array, the packed bitmap of frames,
 * the two arrays of the inverted page table, and the page tables. Each method is tied to the step on values
 * that it carries out.
 */
module PagedMachine {
  import opened Bytes
  import opened BitMaps
  import opened Paging

  class Machine {
    const mainMemory: array<Byte>
    const frames: BitMap
    const IPT: array<Pid>
    const IPT_VP: array<int>
    var spaces: map<Pid, Space>
    var current: Pid

    ghost predicate Sound()
      reads this, mainMemory, frames, frames.words, IPT, IPT_VP
    {
      && frames.Valid() && frames.numBits == NUM_FRAMES
      && mainMemory as object != frames.words && mainMemory as object != IPT && mainMemory as object != IPT_VP
      && IPT as object != frames.words && IPT_VP as object != frames.words && IPT as object != IPT_VP
    }

    ghost predicate Valid()
      reads this, mainMemory, frames, frames.words, IPT, IPT_VP
    {
      Sound() && Inv(View())
    }

    ghost function View(): Vm
      reads this, mainMemory, frames, IPT, IPT_VP
    {
      Vm(mainMemory[..], frames.marked, IPT[..], IPT_VP[..], spaces, current)
    }

    /** A machine with one program loaded, none of whose pages is in memory yet. */
    constructor (id: Pid, image: seq<Byte>)
      requires |image| % 256 == 0 && |image| <= 0x8000_0000
      ensures Valid() && Untouched(View()) && spaces == map[id := Fresh(image)] && current == id
    {
      mainMemory := new Byte[MEMORY_SIZE](i => 0);
      frames := new BitMap(NUM_FRAMES);
      IPT := new Pid[NUM_FRAMES](i => 0);
      IPT_VP := new int[NUM_FRAMES](i => 0);
      current := id;
      spaces := map[id := Fresh(image)];
    }

    /** The loop of the address space constructor that sets up the page table. */
    method InitTable(numPages: nat) returns (table: seq<Translation>)
      ensures table == seq(numPages, i => Translation(i, 0, false, false, false, false))
    {
      table := [];
      for i := 0 to numPages
        invariant table == seq(i, j => Translation(j, 0, false, false, false, false))
      {
        table := table + [Translation(i, 0, false, false, false, false)];
      }
    }

    /** A new address space: as many pages as its image takes, all of them only in the swap file. */
    method CreateSpace(id: Pid, image: seq<Byte>)
      requires Valid() && Enabled(View(), Create(id, image))
      modifies this
      ensures Valid() && View() == Next(old(View()), Create(id, image))
    {
      CreatedKeeps(View(), id, image);
      var numPages := |image| / 256;
      var table := InitTable(numPages);
      spaces := spaces[id := Space(table, image)];
    }

    method RestoreState(id: Pid)
      requires Valid() && id in spaces
      modifies this
      ensures Valid() && View() == Next(old(View()), Switch(id))
    {
      SwitchedKeeps(View(), id);
      current := id;
    }

    /** The checks, and the use and dirty bits, of one translation. */
    method Translate(virtAddr: Word, size: int, writing: bool) returns (exception: Exception, physAddr: int)
      requires Valid()
      modifies this
      ensures Valid() && exception == Check(old(View()), virtAddr, size, writing)
      ensures exception != NoException ==> View() == old(View())
      ensures exception == NoException ==>
        && PageOf(virtAddr) < |old(spaces)[old(current)].table|
        && View() == Touched(old(View()), virtAddr, writing) && physAddr == Physical(old(View()), virtAddr)
    {
      physAddr := 0;
      if (size == 4 && virtAddr % 4 != 0) || (size == 2 && virtAddr % 2 != 0) {
        return AddressError, physAddr;
      }
      var vpn, offset := virtAddr / 256, virtAddr % 256;
      var table := spaces[current].table;
      if vpn >= |table| {
        return AddressError, physAddr;
      } else if !table[vpn].valid {
        return PageFault, physAddr;
      }
      var entry := table[vpn];
      if entry.readOnly && writing {
        return ReadOnly, physAddr;
      }
      var pageFrame := entry.physicalPage;
      if !(0 <= pageFrame < NUM_FRAMES) {
        return BusError, physAddr;
      }
      TouchedKeeps(View(), virtAddr, writing);
      entry := entry.(use := true);
      if writing {
        entry := entry.(dirty := true);
      }
      spaces := spaces[current := spaces[current].(table := table[vpn := entry])];
      return NoException, pageFrame * 256 + offset;
    }

    /** Copy a page of the swap file into a frame. */
    method CopyIn(frame: int, vp: int)
      requires Sound() && Shape(View()) && 0 <= frame < NUM_FRAMES && 0 <= vp < |spaces[current].table|
      modifies mainMemory
      ensures Sound() && SpaceOk(spaces[current])
      ensures mainMemory[..] == Splice(old(mainMemory[..]), Start(frame), spaces[current].swap[Start(vp)..Start(vp) + 256])
    {
      var swap := spaces[current].swap;
      assert SpaceOk(spaces[current]);
      assert mainMemory.Length == |mainMemory[..]|;
      for i := 0 to 256
        invariant forall k :: 0 <= k < MEMORY_SIZE ==>
          mainMemory[k] == if Start(frame) <= k < Start(frame) + i then swap[Start(vp) + k - Start(frame)] else old(mainMemory[k])
      {
        mainMemory[frame * 256 + i] := swap[vp * 256 + i];
      }
    }

    /** `PageFaultException`: serve the fault from a free frame, if there is one. */
    method HandlePageFault(badVAddr: Word, ghost size: int, ghost writing: bool)
      requires Valid() && Check(View(), badVAddr, size, writing) == PageFault
      modifies this, mainMemory, frames, frames.words, IPT, IPT_VP
      ensures Valid() && View() == Served(old(View()), badVAddr, size, writing)
    {
      ghost var vm := View();
      var badVpage := badVAddr / 256;
      ServedKeeps(vm, badVAddr, size, writing);
      var freePage := TakeFrame();
      if freePage != -1 {
        FrameTaken(vm, badVpage, freePage);
        LoadPage(freePage, badVpage);
      }
    }

    /** Find and mark the least free frame. */
    method TakeFrame() returns (f: int)
      requires Sound()
      modifies frames, frames.words
      ensures Sound() && f == FreeFrame(old(frames.marked), 0)
      ensures View() == if f == -1 then old(View()) else old(View()).(used := old(frames.marked) + {f})
    {
      f := frames.Find();
      FreeFrameIs(old(frames.marked), f);
    }

    lemma {:induction false} FrameTaken(vm: Vm, vp: int, f: int)
      requires Shape(vm) && 0 <= vp < |vm.spaces[vm.current].table| && 0 <= f < NUM_FRAMES
      ensures Shape(vm.(used := vm.used + {f})) && PagedIn(vm.(used := vm.used + {f}), vp, f) == PagedIn(vm, vp, f)
    {
      assert vm.used + {f} + {f} == vm.used + {f};
    }

    /** Put a page into a frame that has just been taken. */
    method LoadPage(frame: int, vp: int)
      requires Sound() && Shape(View()) && 0 <= frame < NUM_FRAMES && 0 <= vp < |spaces[current].table| && frame in frames.marked
      modifies this, mainMemory, IPT, IPT_VP
      ensures Sound() && View() == PagedIn(old(View()), vp, frame)
    {
      NoteFrame(frame, vp);
      CopyIn(frame, vp);
      SetValid(frame, vp);
    }

    /** Enter a page in the inverted page table. */
    method NoteFrame(frame: int, vp: int)
      requires Sound() && Shape(View()) && 0 <= frame < NUM_FRAMES
      modifies IPT, IPT_VP
      ensures Sound() && View() == old(View()).(owner := old(IPT[..])[frame := current], page := old(IPT_VP[..])[frame := vp])
    {
      assert IPT.Length == |IPT[..]| && IPT_VP.Length == |IPT_VP[..]|;
      IPT[frame] := current;
      IPT_VP[frame] := vp;
    }

    /** Let the page's entry point to the frame. */
    method SetValid(frame: int, vp: int)
      requires Sound() && current in spaces && 0 <= vp < |spaces[current].table|
      modifies this
      ensures Sound() && View() == SetEntry(old(View()), vp, old(spaces[current]).table[vp].(physicalPage := frame, valid := true))
    {
      var space := spaces[current];
      var entry := space.table[vp].(physicalPage := frame);
      spaces := spaces[current := space.(table := space.table[vp := entry.(valid := true)])];
    }

    lemma {:induction false} FreeFrameIs(used: set<int>, f: int)
      requires f == -1 ==> forall g :: 0 <= g < NUM_FRAMES ==> g in used
      requires f != -1 ==> 0 <= f < NUM_FRAMES && f !in used && forall g :: 0 <= g < f ==> g in used
      ensures FreeFrame(used, 0) == f
    {}

    /** Read 1, 2 or 4 bytes of virtual memory; a page fault is served, and the access is to be made again. */
    method ReadMem(addr: Word, size: int) returns (exception: Exception, value: Word)
      requires Valid() && IsSize(size)
      modifies this, mainMemory, frames, frames.words, IPT, IPT_VP
      ensures Valid() && exception == Check(old(View()), addr, size, false)
      ensures exception == NoException ==> View() == Touched(old(View()), addr, false) && value == ReadValue(old(View()), addr, size)
      ensures exception != NoException ==> View() == Served(old(View()), addr, size, false)
    {
      ghost var vm := View();
      value := 0;
      var physicalAddress;
      exception, physicalAddress := Translate(addr, size, false);
      if exception != NoException {
        if exception == PageFault {
          HandlePageFault(addr, size, false);
        }
        return;
      }
      InFrame(vm, addr, size, false);
      value := FetchValue(physicalAddress, size);
    }

    method FetchValue(at: int, size: int) returns (value: Word)
      requires 0 <= at && at + size <= mainMemory.Length && IsSize(size)
      ensures value == Decoded(mainMemory[..][at..at + size])
    {
      var data: int := mainMemory[at];
      if size == 1 {
        value := if data < 128 then data else data + 0xffff_ff00;
      } else if size == 2 {
        var more: int := mainMemory[at + 1];
        value := data + 256 * more;
      } else {
        value := FromDigits(mainMemory[at], mainMemory[at + 1], mainMemory[at + 2], mainMemory[at + 3]);
      }
    }

    method StoreValue(at: int, size: int, value: Word)
      requires 0 <= at && at + size <= mainMemory.Length && IsSize(size)
      modifies mainMemory
      ensures mainMemory[..] == Splice(old(mainMemory[..]), at, Encoded(value, size))
    {
      mainMemory[at] := Digit(value, 0);
      if size >= 2 {
        mainMemory[at + 1] := Digit(value, 1);
      }
      if size == 4 {
        mainMemory[at + 2] := Digit(value, 2);
        mainMemory[at + 3] := Digit(value, 3);
      }
    }

    method WriteMem(addr: Word, size: int, value: Word) returns (exception: Exception)
      requires Valid() && IsSize(size)
      modifies this, mainMemory, frames, frames.words, IPT, IPT_VP
      ensures Valid() && exception == Check(old(View()), addr, size, true)
      ensures exception == NoException ==> View() == Written(old(View()), addr, size, value)
      ensures exception != NoException ==> View() == Served(old(View()), addr, size, true)
    {
      ghost var vm := View();
      var physicalAddress;
      exception, physicalAddress := Translate(addr, size, true);
      if exception != NoException {
        if exception == PageFault {
          HandlePageFault(addr, size, true);
        }
        return;
      }
      InFrame(vm, addr, size, true);
      WrittenKeeps(vm, addr, size, value);
      StoreValue(physicalAddress, size, value);
    }
  }
}
