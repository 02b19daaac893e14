# A verified model of the Nachos kernel

Nachos is an instructional operating system: a kernel that runs on a simulated MIPS machine with a simulated
disk, timer and clock. This project models the parts of it whose correctness spans several operations, and
proves what they keep over every input, every run and every interleaving. `dafny verify dfyconfig.toml` checks
everything.

Code that updates objects in place is modelled by classes whose methods update fields and arrays. Each of those
methods is tied, by its postcondition, to a step on plain values, and the theorems about whole runs are about
those steps.

- **The file system.** `Bytes`, `FileImage`, `OpenFiles` and `FileStreams` turn scattered 256-byte sectors into
  flat files: `WriteAt` is an exact splice, and streams survive any chunking. `WordBits`, `BitMaps`,
  `FileHeaders` and `Directories` are the free map, the i-nodes and the directory table, each with its image on
  disk. `DiskLayout` states when a whole disk is consistent, `DiskSteps` what one operation may change,
  `FileSystems` carries the operations out, and `FileSystemRuns` proves the invariant and the name map over
  every run from a formatted disk.
- **The event simulator and the thread kernel.** `Lists` and `ThreadLists` are the linked lists and the
  rotations done on them. `Interrupts` and `InterruptSimulator` are simulated time and interrupt delivery, for
  arbitrary handlers, and `InterruptRuns` ties deliveries to the requests for them. `ThreadKernel` is scheduler,
  semaphores, Join and Finish as steps on values, over all interleavings, and `ThreadOrder` what threads can rely
  on: that Join waits, and the order in which threads run and wake. `ThreadSystem` is the same as linked lists
  and thread objects, `ThreadObjects` couples all objects together with such a state, and `ThreadRuns` carries
  the results over every run to the objects.
- **Memory and the processor.** `Paging` and `PagedMachine` are address translation and demand paging over a
  swap file, `SwapFiles` keeps that file in the file system, `MemoryRuns` is about the numbers written and read
  and the marks in the page tables over whole runs, and `Views` says when two memories look alike.
  `Instructions`, `Mips` and `Processor` are the instruction cycle, the instruction set and the register array;
  `MipsLaws` has the laws of the instruction set, and `Programs` says what steps do to registers and bytes.
  `Commits` compares executions before and after the pending delayed load, `Restart` proves restart after page
  faults, and `DelaySlots` shows where it fails.
- **Arithmetic.** `Multiplier` is the shift-and-add multiplier; `DiskTiming` is seek time, rotation and the
  track buffer.

`Options` and `Runs` are shared: an optional value, and runs of a step relation.

Conventions. A C `int` is an unbounded `int` with its range or its wrap-around written out where it matters.
Tick counters and file positions are not wrapped. Buffers passed as pointers are an array and an offset, or a
sequence. A failing `ASSERT` stops the simulator, so its condition is a precondition of the model, proved at
every call inside the model. The clock is a parameter or a field, interrupt handlers are an arbitrary function
of the delivery number, a thread is its object, and semaphores and address spaces are named by numbers.
That the invariants can be met at all is shown by what establishes them from nothing: formatting an arbitrary
disk, the initial states of the interrupt simulator and the thread kernel, and the constructors of the paged
machine and the processor.

Where comments and code differ, the model follows the code. A comment in `filehdr.h` gives just under 4K bytes
as the longest file; with 256-byte sectors and 62 table entries it is 15872 bytes. OR combines rs with itself and
the logical right shifts keep the sign (`mipssim.cc`, lines 376 and 445 to 455).

## Model

| member | source | states |
|---|---|---|
| `FileImage.HeaderRoundTrip` | nachos-3.4/code/filesys/filehdr.cc:77-94 | a header written to its sector and fetched again is the same header, for every header whose numbers fit C ints |
| `FileImage.SameSectorsSameBytes` | nachos-3.4/code/filesys/filehdr.cc:106-121 | a file's bytes depend on its own data sectors only: changes elsewhere on the disk do not show in it |
| `OpenFiles.SynchDisk.ReadSector` | nachos-3.4/code/filesys/synchdisk.cc:72-79 | puts exactly the sector's 256 bytes into the buffer at the given place and changes nothing else |
| `OpenFiles.SynchDisk.WriteSector` | nachos-3.4/code/filesys/synchdisk.cc:90-97 | replaces exactly one sector by the 256 bytes of the buffer |
| `OpenFiles.OpenFile.constructor` | nachos-3.4/code/filesys/openfile.cc:29-35 | the handle caches the header that is on disk and starts at position 0 |
| `OpenFiles.OpenFile.ByteToSector` | nachos-3.4/code/filesys/filehdr.cc:106-110 | the sector of an offset within the file is one of the file's own data sectors |
| `OpenFiles.OpenFile.ReadSectors` | nachos-3.4/code/filesys/openfile.cc:130-138 | the sector loop collects the raw bytes of a range of the file's sectors, in order |
| `OpenFiles.OpenFile.ReadAt` | nachos-3.4/code/filesys/openfile.cc:116-144 | returns the count clamped to the file's end, and the buffer receives exactly those bytes of the file, every other byte of it unchanged |
| `OpenFiles.OpenFile.ReadEdges` | nachos-3.4/code/filesys/openfile.cc:167-175 | reads the first and last partial sectors into the buffer for every alignment, the last one after the first |
| `OpenFiles.OpenFile.Flush` | nachos-3.4/code/filesys/openfile.cc:180-183 | writes the buffered sectors to the file's own sectors of the range and to no other sector |
| `OpenFiles.FlushedIsRewrote` | nachos-3.4/code/filesys/openfile.cc:161-183 | flushing a buffer that holds the spliced bytes up to the clamped end makes the file those bytes, although bytes past the end of the file are not kept |
| `OpenFiles.OpenFile.WriteAt` | nachos-3.4/code/filesys/openfile.cc:146-186 | exact splice: for every position, length and alignment it returns the clamped count k, the file becomes old[..pos] + from[..k] + old[pos+k..], and no sector outside the file's own changes |
| `OpenFiles.OpenFile.Seek` | nachos-3.4/code/filesys/openfile.cc:55-59 | sets the position and nothing else |
| `OpenFiles.OpenFile.Read` | nachos-3.4/code/filesys/openfile.cc:74-80 | reads at the position and advances it by the count returned |
| `OpenFiles.OpenFile.Write` | nachos-3.4/code/filesys/openfile.cc:82-88 | writes at the position and advances it by the count returned |
| `FileStreams.WriteChunksIsSplice` | nachos-3.4/code/filesys/openfile.cc:82-88 | any chunking of sequential writes amounts to one splice of the concatenated data, cut off at the file length |
| `FileStreams.ReadChunksIsSlice` | nachos-3.4/code/filesys/openfile.cc:74-80 | any chunking of sequential reads concatenates to one slice of the file |
| `FileStreams.StreamRoundTrip` | nachos-3.4/code/filesys/openfile.cc:74-144 | writes in any chunking, then reads from the start in any other chunking, give the written stream, as far as it fits the file and is asked for |
| `FileStreams.WriteStream` | nachos-3.4/code/filesys/openfile.cc:82-88 | a loop of Write calls has the effect of the chunked write on the file's contents |
| `FileStreams.ReadStream` | nachos-3.4/code/filesys/openfile.cc:74-80 | a loop of Read calls returns the chunked read of the file's contents and leaves the disk alone |
| `FileStreams.WriteReopenRead` | nachos-3.4/code/filesys/openfile.cc:74-144 | open, write in chunks, reopen, read in other chunks: the data read are the data written |
| `WordBits.SetBit` | nachos-3.4/code/userprog/bitmap.cc:47-52 | or-ing a mask into a 32-bit word sets that bit and no other |
| `WordBits.ResetBit` | nachos-3.4/code/userprog/bitmap.cc:61-66 | and-ing with the complement of a mask clears that bit and no other |
| `BitMaps.MarkedAfterSet` | nachos-3.4/code/userprog/bitmap.cc:47-52 | setting one bit of the packed words adds exactly one element to the set they stand for |
| `BitMaps.MarkedAfterReset` | nachos-3.4/code/userprog/bitmap.cc:61-66 | clearing one bit of the packed words removes exactly one element from the set |
| `BitMaps.CountFalseIsRest` | nachos-3.4/code/userprog/bitmap.cc:112-120 | the number of clear bits is the size minus the number of marked ones |
| `BitMaps.MapRoundTrip` | nachos-3.4/code/userprog/bitmap.cc:151-168 | the packed words written to a file and fetched again are the same words |
| `BitMaps.BitMap.constructor` | nachos-3.4/code/userprog/bitmap.cc:21-28 | a new map has every bit clear, whatever its memory held |
| `BitMaps.BitMap.Mark` | nachos-3.4/code/userprog/bitmap.cc:47-52 | the packed-word map refines a set: Mark adds the element |
| `BitMaps.BitMap.Clear` | nachos-3.4/code/userprog/bitmap.cc:61-66 | Clear removes the element |
| `BitMaps.BitMap.Test` | nachos-3.4/code/userprog/bitmap.cc:75-84 | Test tells membership |
| `BitMaps.BitMap.Find` | nachos-3.4/code/userprog/bitmap.cc:95-104 | takes the least clear bit; -1 exactly when every bit is marked, and then nothing changes |
| `BitMaps.BitMap.NumClear` | nachos-3.4/code/userprog/bitmap.cc:112-120 | counts the bits that are not marked |
| `BitMaps.BitMap.FetchFrom` | nachos-3.4/code/userprog/bitmap.cc:151-155 | the set becomes the one the file's bytes stand for |
| `BitMaps.BitMap.WriteBack` | nachos-3.4/code/userprog/bitmap.cc:164-168 | the file's bytes become the packed words, and no other sector changes |
| `FileHeaders.FileHeader.Allocate` | nachos-3.4/code/filesys/filehdr.cc:41-52 | succeeds exactly if enough sectors are clear; then never stores -1: the sectors strictly increase, were clear, are all that is newly marked, the lowest ones, and the clear count drops by exactly ceil(size/256); on failure the map is unchanged |
| `FileHeaders.FirstFitMeaning` | nachos-3.4/code/filesys/filehdr.cc:49-50 | every sector still clear lies above every sector taken |
| `FileHeaders.FileHeader.Deallocate` | nachos-3.4/code/filesys/filehdr.cc:61-68 | the ought-to-be-marked assertion holds at every round, and exactly the file's data sectors become clear |
| `FileHeaders.FileHeader.FetchFrom` | nachos-3.4/code/filesys/filehdr.cc:77-81 | the in-memory header becomes the one on disk |
| `FileHeaders.FileHeader.WriteBack` | nachos-3.4/code/filesys/filehdr.cc:90-94 | exactly the header's sector changes, and reads back as this header |
| `Directories.MatchIsKey` | nachos-3.4/code/filesys/directory.cc:90-97 | the strncmp test of a directory entry is equality of names cut to 9 characters |
| `Directories.NewEntryKey` | nachos-3.4/code/filesys/directory.cc:129-143 | an entry filled in by strncpy has the name's first 9 characters as its key |
| `Directories.TableRoundTrip` | nachos-3.4/code/filesys/directory.cc:63-80 | the table written to the directory file and fetched again is the same table |
| `Directories.Directory.FindIndex` | nachos-3.4/code/filesys/directory.cc:90-97 | the first entry in use with that key, or -1 exactly when there is none |
| `Directories.Directory.Find` | nachos-3.4/code/filesys/directory.cc:108-116 | the header sector of that entry, or -1 |
| `Directories.Directory.Add` | nachos-3.4/code/filesys/directory.cc:129-143 | fails exactly if the name is taken or no entry is free; otherwise fills the first free entry and changes no other |
| `Directories.Directory.Remove` | nachos-3.4/code/filesys/directory.cc:153-162 | marks exactly the found entry free; fails exactly if there is none |
| `DiskSteps.CreatedConsistent` | nachos-3.4/code/filesys/filesys.cc:174-215 | a successful Create keeps the disk consistent: marked sectors = disjoint union of sectors 0 and 1, the data of the map and directory files, and every entry's header and data sectors |
| `DiskSteps.CreatedOwn` | nachos-3.4/code/filesys/filesys.cc:174-215 | after Create the new name has a file of exactly the requested size |
| `DiskSteps.CreatedOthers` | nachos-3.4/code/filesys/filesys.cc:174-215 | Create leaves the bytes of every other file as they were |
| `DiskSteps.RemovedConsistent` | nachos-3.4/code/filesys/filesys.cc:257-288 | Remove keeps the disk consistent |
| `DiskSteps.RemovedContents` | nachos-3.4/code/filesys/filesys.cc:257-288 | Remove takes one name out of the map and leaves the bytes of every other file as they were |
| `DiskSteps.CreateRemoveRestores` | nachos-3.4/code/filesys/filesys.cc:174-288 | a successful Create followed by Remove of that name restores the free map and the whole name map |
| `DiskSteps.WroteConsistent` | nachos-3.4/code/filesys/openfile.cc:146-186 | a write through a handle keeps the disk consistent |
| `DiskSteps.WroteContents` | nachos-3.4/code/filesys/openfile.cc:146-186 | a write changes the bytes of its own file and of no other |
| `FileSystems.FormattedConsistent` | nachos-3.4/code/filesys/filesys.cc:83-128 | a formatted disk is consistent and its directory is empty |
| `FileSystems.Reserve` | nachos-3.4/code/filesys/filesys.cc:191-203 | the in-memory part of Create succeeds exactly if an entry, a header sector and the data sectors are all there |
| `FileSystems.FileSystem.constructor` | nachos-3.4/code/filesys/filesys.cc:137-142 | mounting a consistent disk leaves every sector alone |
| `FileSystems.FileSystem.Format` | nachos-3.4/code/filesys/filesys.cc:83-128 | formatting any disk leaves a consistent, empty one, as the run theorems start from, whatever was on it; the two allocation assertions hold |
| `FileSystems.FileSystem.Open` | nachos-3.4/code/filesys/filesys.cc:227-241 | returns a handle exactly if the name exists, with that file's header and contents, at position 0 |
| `FileSystems.FileSystem.Create` | nachos-3.4/code/filesys/filesys.cc:174-215 | all or nothing: success exactly if the name is new and entry, header and data sectors are available; on failure every disk sector is unchanged; on success the disk is the created one |
| `FileSystems.FileSystem.ReleaseFile` | nachos-3.4/code/filesys/filesys.cc:272-279 | under the disk invariant the sectors given back are exactly the file's, all of them marked before |
| `FileSystems.FileSystem.Remove` | nachos-3.4/code/filesys/filesys.cc:257-288 | FALSE exactly if the name does not exist, with every sector unchanged; otherwise the disk is the one without that file |
| `FileSystemRuns.NextKeepsInv` | nachos-3.4/code/filesys/filesys.cc:174-288 | every Create, Remove, Open, Write and Read keeps consistency and keeps every live handle's cached header equal to the header on disk |
| `FileSystemRuns.EveryRunConsistent` | nachos-3.4/code/filesys/filesys.cc:83-288 | in every state of every run from a formatted disk the free map marks exactly the disjoint union of the files' sectors, and cached headers are accurate |
| `FileSystemRuns.NextMeaning` | nachos-3.4/code/filesys/filesys.cc:174-288 | the disk refines a map from 9-character names to byte strings: each operation acts on one key, with the effect its result says, and leaves every other file's bytes alone |
| `FileSystemRuns.HandleSees` | nachos-3.4/code/filesys/openfile.cc:29-35 | what a live handle sees, in every state in order, is the file of its name |
| `FileSystemRuns.RunObserved` | nachos-3.4/code/filesys/filesys.cc:83-288 | a run of the disk, seen through one name, is a run of that name's contents: none at first, changed only by events about it, and shown by every read |
| `FileSystemRuns.BytesAreLatest` | nachos-3.4/code/filesys/openfile.cc:116-186 | after every run each byte of a file is the last one written there under its name since its Create, else the byte it was created with |
| `FileSystemRuns.ReadsReturnLatest` | nachos-3.4/code/filesys/openfile.cc:116-144 | every read through a live handle, in any run from a formatted disk, returns as many bytes as were asked for and the file has, and each is the last one written there under that name since its Create, through whatever handle, else the byte the file was created with |
| `FileSystemRuns.UntouchedName` | nachos-3.4/code/filesys/filesys.cc:174-288 | over any run a name that no event is about keeps its contents byte for byte |
| `Lists.SlotInSorted` | nachos-3.4/code/threads/list.cc:182-206 | in a sorted list the new item goes after all smaller and equal keys and before all bigger ones |
| `Lists.InsertedSorted` | nachos-3.4/code/threads/list.cc:182-206 | insertion keeps the list sorted |
| `Lists.InsertedMultiset` | nachos-3.4/code/threads/list.cc:182-206 | insertion adds exactly the new item |
| `Lists.List.Append` | nachos-3.4/code/threads/list.cc:77-90 | the linked list refines a sequence: the item is appended, and last is the final reachable node |
| `Lists.List.Prepend` | nachos-3.4/code/threads/list.cc:104-117 | the item is put in front |
| `Lists.List.Remove` | nachos-3.4/code/threads/list.cc:127-132 | takes the first item, or reports that there is none; size drops by one in either case |
| `Lists.List.SortedRemove` | nachos-3.4/code/threads/list.cc:221-241 | takes the first item and tells its key |
| `Lists.List.SortedInsert` | nachos-3.4/code/threads/list.cc:182-206 | the contents become the sorted insertion of the item, in place |
| `ThreadLists.FindByID` | nachos-3.4/code/userprog/exception.cc:69-89 | the rotation finds a thread with that ID exactly if there is one, and leaves the list in its original order |
| `ThreadLists.DropCurrent` | nachos-3.4/code/threads/thread.cc:162-169 | the loop whose bound shrinks leaves exactly the list without the current thread, the last thread possibly in front |
| `ThreadLists.LeftoverKeepsOthers` | nachos-3.4/code/threads/thread.cc:162-169 | what the loop leaves is every other thread, once |
| `Interrupts.QueuedIsInserted` | nachos-3.4/code/machine/interrupt.cc:274 | scheduling puts an interrupt where the sorted list insertion puts it; the pending list is driven by it |
| `Interrupts.CheckDueKeeps` | nachos-3.4/code/machine/interrupt.cc:290-336 | one check keeps the invariant: sorted list, time accounts, books balanced, deliveries punctual and in order |
| `Interrupts.CheckDueDecreases` | nachos-3.4/code/machine/interrupt.cc:165-171 | a check that fires leaves exactly one interrupt fewer due, however many its handler schedules |
| `Interrupts.DrainedMeaning` | nachos-3.4/code/machine/interrupt.cc:165-171 | the drain loop ends with every pending interrupt strictly in the future, except possibly a lone timer while idling; deliveries only grow |
| `Interrupts.TickKeeps` | nachos-3.4/code/machine/interrupt.cc:150-179 | OneTick advances the clock and ends with all pending interrupts strictly in the future |
| `Interrupts.IdleKeeps` | nachos-3.4/code/machine/interrupt.cc:210-234 | Idle halts exactly if nothing but at most a lone timer is pending; otherwise it fires at least one interrupt; time never goes back |
| `Interrupts.NextKeeps` | nachos-3.4/code/machine/interrupt.cc:114-336 | every operation keeps the invariant, never turns the clock back and never forgets a delivery |
| `Interrupts.RunMonotone` | nachos-3.4/code/machine/interrupt.cc:150-336 | over whole runs the clock is monotone and the record of deliveries only grows |
| `Interrupts.RunConserves` | nachos-3.4/code/machine/interrupt.cc:150-336 | for all handlers, after every run: totalTicks = idleTicks + systemTicks + userTicks, scheduled = fired + pending as multisets, and nothing pending is overdue |
| `Interrupts.RunPunctual` | nachos-3.4/code/machine/interrupt.cc:290-336 | no handler ever runs before its time, or more than one system tick late; due times and delivery times never decrease |
| `InterruptRuns.RequestsHonoured` | nachos-3.4/code/machine/interrupt.cc:264-275 | over every run, what is pending or was delivered is exactly what events and handlers asked for, each for the clock of the request plus the delay asked for |
| `InterruptRuns.FiringAnswers` | nachos-3.4/code/machine/interrupt.cc:264-336 | every delivery answers a request made at some clock t with some delay d, and happens between t + d and t + d + 10 |
| `InterruptRuns.RunTicks` | nachos-3.4/code/machine/interrupt.cc:151-163 | over every run the system ticks are ten for each tick in the kernel, the user ticks one for each other tick, and the clock is these and the time idled |
| `InterruptRuns.NoWishLeft` | nachos-3.4/code/machine/interrupt.cc:172-178 | between operations no wish for a yield is left over |
| `InterruptRuns.TickYields` | nachos-3.4/code/machine/interrupt.cc:147-179 | a tick of a run asks for a yield, and leaves the machine in the kernel for it, exactly if the handler of an interrupt delivered in it wants one |
| `InterruptSimulator.Interrupt.SetLevel` | nachos-3.4/code/machine/interrupt.cc:114-127 | enabling interrupts that were off lets a tick pass, and asks for a yield exactly if a handler of that tick did; otherwise only the level changes; returns the old level |
| `InterruptSimulator.Interrupt.OneTick` | nachos-3.4/code/machine/interrupt.cc:150-179 | carries out the tick step in place, with the yield request reported and cleared |
| `InterruptSimulator.Interrupt.Drain` | nachos-3.4/code/machine/interrupt.cc:169-170 | the loop terminates, with the number of due interrupts as measure, in the drained state |
| `InterruptSimulator.Interrupt.Idle` | nachos-3.4/code/machine/interrupt.cc:210-234 | carries out the idle step in place |
| `InterruptSimulator.Interrupt.Schedule` | nachos-3.4/code/machine/interrupt.cc:264-275 | exactly one interrupt more is on the linked pending list, in its place, and in the books; that it is for now + fromNow is `InterruptRuns.RequestsHonoured` |
| `InterruptSimulator.Interrupt.CheckIfDue` | nachos-3.4/code/machine/interrupt.cc:290-336 | carries out one check on the linked pending list, with the machine status restored after the handler |
| `ThreadKernel.ForkKeeps` | nachos-3.4/code/threads/thread.cc:91-102 | Fork of a new thread keeps placement, links and semaphore invariants |
| `ThreadKernel.YieldKeeps` | nachos-3.4/code/threads/thread.cc:193-211 | Yield keeps them |
| `ThreadKernel.PKeeps` | nachos-3.4/code/threads/synch.cc:64-77 | a round of P, on the first call or after waking up, keeps them |
| `ThreadKernel.VKeeps` | nachos-3.4/code/threads/synch.cc:87-98 | V keeps them |
| `ThreadKernel.JoinKeeps` | nachos-3.4/code/userprog/exception.cc:240-269 | the Join system call keeps them |
| `ThreadKernel.FinishKeeps` | nachos-3.4/code/threads/thread.cc:146-173 | Finish, with the wakeup of the joined parent, keeps them |
| `ThreadKernel.DispatchKeeps` | nachos-3.4/code/threads/thread.cc:243-246 | the dispatch that ends Sleep keeps them, and never runs a finished thread |
| `ThreadKernel.After` | nachos-3.4/code/threads/thread.cc:91-247 | after every interleaving of the primitives and of Vs by interrupt handlers the invariant holds |
| `ThreadKernel.Placement` | nachos-3.4/code/threads/thread.cc:146-247 | every thread is in at most one place and at most once: running, on the ready list, or on one semaphore queue; READY holds exactly for ready-list members |
| `ThreadKernel.ParentBlocked` | nachos-3.4/code/threads/thread.cc:156-160 | the parent that Finish wakes is blocked in Join on this very thread, and on no list and no queue |
| `ThreadKernel.ParentRunsNext` | nachos-3.4/code/threads/scheduler.cc:75-83 | the woken parent is the next thread dispatched, ahead of everything that was ready |
| `ThreadKernel.NeverAlreadyJoined` | nachos-3.4/code/userprog/exception.cc:251-264 | the already-joined refusal is never taken |
| `ThreadKernel.ValueCounts` | nachos-3.4/code/threads/synch.cc:64-98 | value = initial + number of Vs - number of completed Ps, over every interleaving |
| `ThreadKernel.SemaphoreSafety` | nachos-3.4/code/threads/synch.cc:64-98 | value is never negative and is balanced; while somebody waits, value is at most the number of threads woken from P and not yet re-run |
| `ThreadKernel.WakeupOnItsWay` | nachos-3.4/code/threads/synch.cc:64-98 | if somebody waits on a positive semaphore, a thread woken for it is running or on the ready list |
| `ThreadKernel.IdleMeansStuck` | nachos-3.4/code/threads/synch.cc:64-98 | when the machine idles with nobody ready, no thread waits on a semaphore it could take |
| `ThreadOrder.RunsOn` | nachos-3.4/code/threads/thread.cc:91-247 | what is said of going on from any state that satisfies the invariant is said of every point of every run |
| `ThreadOrder.JoinWaits` | nachos-3.4/code/userprog/exception.cc:251-264 | after a Join the machine is asleep, the caller is blocked in Join on that thread, which has the caller for a parent, and nothing else has changed |
| `ThreadOrder.JoinsNobody` | nachos-3.4/code/userprog/exception.cc:240-269 | a Join that finds nobody changes nothing |
| `ThreadOrder.JoinHolds` | nachos-3.4/code/userprog/exception.cc:251-264 | in no continuation is the caller ready, running or on a queue before the thread joined has finished |
| `ThreadOrder.JoinReturns` | nachos-3.4/code/threads/thread.cc:146-173 | unless that thread is joined again meanwhile, when it finishes the next dispatch makes the caller current, back from Join, whatever interrupt handlers made ready in between |
| `ThreadOrder.SecondJoinLoses` | nachos-3.4/code/userprog/exception.cc:251-264 | a second Join on the same thread makes the first caller wait for ever |
| `ThreadOrder.WokenExactly` | nachos-3.4/code/threads/thread.cc:156-160 | when a thread finishes, a caller waiting for it is woken if and only if it is the one the thread has for a parent; otherwise it waits for ever |
| `ThreadOrder.MakesFinished` | nachos-3.4/code/threads/thread.cc:146-173 | Finish takes the thread off the active list and blocks it for good |
| `ThreadOrder.FinishedForGood` | nachos-3.4/code/threads/thread.cc:146-173 | in no continuation is a finished thread ready or running, unless its object is made a thread anew |
| `ThreadOrder.NewThread` | nachos-3.4/code/threads/thread.cc:34-48 | a new thread is neither ready nor running, and active exactly if it runs a user program |
| `ThreadOrder.ForkReadies` | nachos-3.4/code/threads/thread.cc:91-102 | Fork makes the thread ready, behind all who are |
| `ThreadOrder.DispatchRunsFirst` | nachos-3.4/code/threads/thread.cc:243-246 | the dispatch runs the first in line and takes it off the list |
| `ThreadOrder.YieldSwitches` | nachos-3.4/code/threads/thread.cc:193-211 | with somebody ready, Yield runs the first in line and puts the caller behind all others; with nobody, nothing changes |
| `ThreadOrder.ReadyInOrder` | nachos-3.4/code/threads/scheduler.cc:53-73 | in every continuation ready threads run in the order of the list: the one behind does not run before the one ahead has run |
| `ThreadOrder.BecomesReady` | nachos-3.4/code/threads/scheduler.cc:53-83 | whoever becomes ready goes behind all who are, but for a joined parent, who goes ahead of them |
| `ThreadOrder.PWaitsOrTakes` | nachos-3.4/code/threads/synch.cc:64-77 | P sleeps behind all waiters if the value is zero, and else takes one and goes through |
| `ThreadOrder.VWakesFirst` | nachos-3.4/code/threads/synch.cc:87-98 | V makes the first in line ready, no other, and adds one to the value |
| `ThreadOrder.WaitersInOrder` | nachos-3.4/code/threads/synch.cc:64-98 | in every continuation waiters wake in the order they came |
| `ThreadOrder.SleepsUntilV` | nachos-3.4/code/threads/synch.cc:64-98 | nothing but a V on its semaphore wakes a waiting thread |
| `ThreadSystem.EnabledSteps` | nachos-3.4/code/threads/thread.cc:146-247 | under the invariant every enabled step can be carried out: the heads of the lists and the parent are threads, and other threads than the current one |
| `ThreadSystem.StepTouches` | nachos-3.4/code/threads/thread.cc:91-247 | each step leaves every thread and semaphore alone but those it is about |
| `ThreadSystem.Scheduler.ReadyToRun` | nachos-3.4/code/threads/scheduler.cc:53-59 | this very thread object is READY and last on the linked ready list, behind the same objects as before; no other thread object changes |
| `ThreadSystem.Scheduler.FindNextToRun` | nachos-3.4/code/threads/scheduler.cc:69-73 | returns the first object of the linked ready list, if any, and leaves the others in their order |
| `ThreadSystem.Scheduler.WakeUpFromJoin` | nachos-3.4/code/threads/scheduler.cc:75-83 | this very thread object is READY, no longer joined, and first on the linked ready list, ahead of the same objects as before |
| `ThreadSystem.Scheduler.Run` | nachos-3.4/code/threads/scheduler.cc:99-144 | this very thread object is current and RUNNING, and a finished predecessor is no thread any more |
| `ThreadSystem.Scheduler.Fork` | nachos-3.4/code/threads/thread.cc:91-102 | this very thread object is READY and last on the linked ready list |
| `ThreadSystem.Scheduler.Yield` | nachos-3.4/code/threads/thread.cc:193-211 | the first object of the ready list is current and RUNNING, the old current object is READY and last on the list, the rest of the list and all other threads are as before; with nobody ready nothing changes |
| `ThreadSystem.Scheduler.Sleep` | nachos-3.4/code/threads/thread.cc:232-242 | the current thread object is BLOCKED and nobody runs |
| `ThreadSystem.Scheduler.Dispatch` | nachos-3.4/code/threads/thread.cc:243-246 | the first object of the ready list is off it, current and RUNNING |
| `ThreadSystem.Semaphore.constructor` | nachos-3.4/code/threads/synch.cc:36-41 | a semaphore nobody has used, with an empty linked queue |
| `ThreadSystem.Semaphore.P` | nachos-3.4/code/threads/synch.cc:64-77 | with value zero the current thread object goes last on the linked queue and sleeps; otherwise the value drops by one; no other thread changes |
| `ThreadSystem.Semaphore.V` | nachos-3.4/code/threads/synch.cc:87-98 | the value rises by one, and the first object of the linked queue, if any, moves to the end of the linked ready list and is READY |
| `ThreadSystem.Processes.Create` | nachos-3.4/code/userprog/exception.cc:224-228 | a new thread object among the threads, and exactly that object added to the linked active list if it runs a user program |
| `ThreadSystem.Processes.Join` | nachos-3.4/code/userprog/exception.cc:240-269 | the system call from its argument on: the getID rotation finds an active thread object with that ID exactly if there is one; its parent becomes the current thread object, which sleeps; every other thread object and the active list are as before |
| `ThreadSystem.Processes.Finish` | nachos-3.4/code/threads/thread.cc:146-173 | the parent object, if any, is woken to the front of the ready list, exactly the current thread object leaves the linked active list, and it sleeps for good |
| `ThreadObjects.Initialize` | nachos-3.4/code/threads/system.cc:146-168 | the objects made at start-up stand for a state in which the main thread runs, nobody is ready and the semaphores are unused |
| `ThreadObjects.System.Create` | nachos-3.4/code/userprog/exception.cc:224-228 | all thread objects, lists and semaphores, standing for a state, stand for that state with the new thread afterwards |
| `ThreadObjects.System.Fork` | nachos-3.4/code/threads/thread.cc:91-102 | all thread objects, lists and semaphores, standing for a state, stand afterwards for its Fork step |
| `ThreadObjects.System.Yield` | nachos-3.4/code/threads/thread.cc:193-211 | all thread objects, lists and semaphores, standing for a state, stand afterwards for its Yield step |
| `ThreadObjects.System.P` | nachos-3.4/code/threads/synch.cc:64-77 | all thread objects, lists and semaphores, standing for a state, stand afterwards for a round of P on it; no other semaphore notices |
| `ThreadObjects.System.V` | nachos-3.4/code/threads/synch.cc:87-98 | all thread objects, lists and semaphores, standing for a state, stand afterwards for V on it; no other semaphore notices |
| `ThreadObjects.System.Join` | nachos-3.4/code/userprog/exception.cc:240-269 | all thread objects, lists and semaphores, standing for a state, stand afterwards for its Join step on the thread that the search finds |
| `ThreadObjects.System.Finish` | nachos-3.4/code/threads/thread.cc:146-173 | all thread objects, lists and semaphores, standing for a state, stand afterwards for its Finish step |
| `ThreadObjects.System.Dispatch` | nachos-3.4/code/threads/thread.cc:243-246 | all thread objects, lists and semaphores, standing for a state, stand afterwards for its dispatch step |
| `ThreadRuns.Boot` | nachos-3.4/code/threads/system.cc:146-168 | start-up begins a run: the objects stand for its first state |
| `ThreadRuns.Create` | nachos-3.4/code/userprog/exception.cc:224-228 | objects that stand for where a run has led stand, after the call, for where the run with this step added leads |
| `ThreadRuns.Fork` | nachos-3.4/code/threads/thread.cc:91-102 | objects that stand for where a run has led stand afterwards for where the run with this step added leads, whenever the thread has just been created |
| `ThreadRuns.Yield` | nachos-3.4/code/threads/thread.cc:193-211 | objects that stand for where a run has led stand afterwards for where the run with this step added leads, whenever the running thread may call it |
| `ThreadRuns.P` | nachos-3.4/code/threads/synch.cc:64-77 | objects that stand for where a run has led stand afterwards for where the run with this step added leads, on the first call and after waking up |
| `ThreadRuns.V` | nachos-3.4/code/threads/synch.cc:87-98 | objects that stand for where a run has led stand afterwards for where the run with this step added leads, at any time, from threads and interrupt handlers |
| `ThreadRuns.Join` | nachos-3.4/code/userprog/exception.cc:240-269 | objects that stand for where a run has led stand afterwards for where the run with this step added leads, for the active thread with the ID asked for, or for none exactly if there is none |
| `ThreadRuns.Finish` | nachos-3.4/code/threads/thread.cc:146-173 | objects that stand for where a run has led stand afterwards for where the run with this step added leads, and that the parent can be woken follows from the run |
| `ThreadRuns.Dispatch` | nachos-3.4/code/threads/thread.cc:243-246 | objects that stand for where a run has led stand afterwards for where the run with this step added leads, whenever nobody runs and somebody is ready |
| `ThreadRuns.ReadyObjects` | nachos-3.4/code/threads/scheduler.cc:53-83 | at any point of any run the linked ready list has exactly the READY thread objects on it, each once |
| `ThreadRuns.SemaphoreObjects` | nachos-3.4/code/threads/synch.cc:64-98 | at any point of any run a semaphore object's value is its initial one plus Vs minus completed Ps and never negative, and its linked queue has exactly the thread objects blocked in its P, each once |
| `ThreadRuns.JoinObjects` | nachos-3.4/code/userprog/exception.cc:251-264 | just after a Join step of any run the current thread object is blocked, joined and asleep, and is the parent of the thread object joined |
| `Paging.NoSharing` | nachos-3.4/code/userprog/exception.cc:379-385 | no two valid pages, of one space or of two, share a frame |
| `Paging.WordRoundTrip` | nachos-3.4/code/machine/translate.cc:87-169 | a word written and read back is the same word |
| `Paging.DecodedMeaning` | nachos-3.4/code/machine/translate.cc:101-119 | a value read is the number that the bytes stand for, the least significant first, a single byte sign-extended |
| `Paging.EncodedMeaning` | nachos-3.4/code/machine/translate.cc:151-168 | the bytes written stand for the value, cut to the size |
| `Paging.InFrame` | nachos-3.4/code/machine/translate.cc:186-255 | an access that translates stays within one frame and within main memory |
| `Paging.NoBusError` | nachos-3.4/code/machine/translate.cc:240-247 | the invalid-frame exception never happens |
| `Paging.TouchedView` | nachos-3.4/code/machine/translate.cc:248-250 | use and dirty bits change nothing that a program sees |
| `Paging.WrittenView` | nachos-3.4/code/machine/translate.cc:137-169 | a write changes its own bytes in the running program's space and no other byte of any program |
| `Paging.ReadBytes` | nachos-3.4/code/machine/translate.cc:87-122 | a read returns the number that the bytes the program sees stand for, the least significant first, a single byte sign-extended |
| `Paging.PagedInKeeps` | nachos-3.4/code/userprog/exception.cc:353-387 | serving a fault from a free frame keeps page tables, frame map, IPT and IPT_VP in agreement |
| `Paging.PagedInView` | nachos-3.4/code/userprog/exception.cc:353-387 | serving a fault changes no byte that any program sees |
| `Paging.GoesExactly` | nachos-3.4/code/machine/translate.cc:186-255 | an access, with its fault served, goes through if and only if it is aligned, within the table, to a page that is valid or for which a frame is free, and no write to a read-only page |
| `Paging.After` | nachos-3.4/code/userprog/exception.cc:319-390 | after every run of accesses, faults, program starts and switches the tables agree |
| `Paging.PagingInvisible` | nachos-3.4/code/userprog/exception.cc:319-390 | after every run each byte of each program is the last one written there, else the swap file's |
| `Paging.ReadReturnsLatest` | nachos-3.4/code/machine/translate.cc:87-122 | a successful ReadMem, the served fault included, returns the number that the bytes last written stand for |
| `MemoryRuns.WriteThenRead` | nachos-3.4/code/machine/translate.cc:87-169 | a number written and read back with the same size is the same word, its low half, or its low byte sign-extended |
| `MemoryRuns.WordThenBytes` | nachos-3.4/code/machine/translate.cc:151-168 | a word written is its four bytes, the least significant at the lowest address |
| `MemoryRuns.ByteRead` | nachos-3.4/code/machine/translate.cc:101-105 | a byte read is the byte that the program sees, sign-extended |
| `MemoryRuns.RunReadsBack` | nachos-3.4/code/machine/translate.cc:87-169 | after any run in which its bytes are not overwritten, a number written is read back: accesses, faults, other programs' writes, starts and switches included |
| `MemoryRuns.RunMarks` | nachos-3.4/code/machine/translate.cc:248-250 | after every run a page is valid exactly if an access to it ever found a free frame, used exactly if one went through, and dirty exactly if a write did |
| `MemoryRuns.RefusedFor` | nachos-3.4/code/machine/translate.cc:186-255 | exactly which exception an access ends with, its fault served: alignment and range first, then a missing page with no frame free, then a write to a read-only page |
| `PagedMachine.Machine.InitTable` | nachos-3.4/code/userprog/addrspace.cc:137-146 | the constructor's loop leaves every page invalid |
| `PagedMachine.Machine.CreateSpace` | nachos-3.4/code/userprog/addrspace.cc:106-146 | a new space has one page per 256 bytes of its image, all of them in the swap file only |
| `PagedMachine.Machine.RestoreState` | nachos-3.4/code/userprog/addrspace.cc:312-316 | a switch changes the current space and nothing else |
| `PagedMachine.Machine.Translate` | nachos-3.4/code/machine/translate.cc:186-255 | the exception of the first check that fails, with nothing changed; otherwise the physical address and the use and dirty bits |
| `PagedMachine.Machine.HandlePageFault` | nachos-3.4/code/userprog/exception.cc:319-390 | serves the fault from the least free frame; without one, changes nothing |
| `PagedMachine.Machine.ReadMem` | nachos-3.4/code/machine/translate.cc:87-122 | on success the number that the bytes at the address stand for, by `Paging.ReadBytes`; on a fault the state after serving it |
| `PagedMachine.Machine.WriteMem` | nachos-3.4/code/machine/translate.cc:137-169 | exactly the addressed bytes of main memory on success; on a fault the state after serving it |
| `SwapFiles.SwapNamesMeet` | nachos-3.4/code/userprog/addrspace.cc:113-114 | two threads share a swap file if and only if their IDs have nine digits or more and start with the same nine |
| `SwapFiles.SwapNamesApart` | nachos-3.4/code/userprog/addrspace.cc:113-114 | so threads with IDs below a thousand million do not |
| `SwapFiles.NextKeepsSwaps` | nachos-3.4/code/userprog/exception.cc:319-390 | no access, page fault or switch changes any space's swapped image |
| `SwapFiles.NextBacked` | nachos-3.4/code/userprog/exception.cc:319-390 | so the files on disk go on holding the images of all spaces |
| `SwapFiles.HandlePageFault` | nachos-3.4/code/userprog/exception.cc:319-390 | on a consistent disk whose swap file holds the image, the service through Open by name and ReadAt is the paging step, and the file can always be opened |
| `SwapFiles.MakeSwapFile` | nachos-3.4/code/userprog/addrspace.cc:113-132 | Create, Open, ReadAt of the program after its header and WriteAt leave a file of the asked size that holds the image, every other name unchanged; without room or with the name taken, nothing happens |
| `SwapFiles.CreateSpace` | nachos-3.4/code/userprog/addrspace.cc:106-146 | a new space from a program's file: its swap file holds its image, and every other space's file still holds that space's |
| `Instructions.BoundaryReady` | nachos-3.4/code/machine/mipssim.cc:93-582 | r0 is zero and the pending load is to a general register at every instruction boundary, traps included |
| `Commits.InstructionSame` | nachos-3.4/code/machine/mipssim.cc:93-565 | an execution not stopped by a page fault does the same in any two memories that look alike |
| `Commits.ReadsPending` | nachos-3.4/code/machine/mipssim.cc:575-582 | the pending load shows in an instruction's operands if and only if it reads the register and the load changes it |
| `Commits.ComputeCommits` | nachos-3.4/code/machine/mipssim.cc:557-581 | doing the pending load first changes the outcome of a register instruction if and only if its plan changes, or it writes the pending register at once with another value than the load's |
| `Commits.ActCommits` | nachos-3.4/code/machine/mipssim.cc:122-565 | plans that agree come to the same before and after the pending load, and for finished instructions conversely; a merging load notices it only for r0 |
| `Commits.IndependentIsTransparent` | nachos-3.4/code/machine/mipssim.cc:575-582 | an instruction that neither reads nor at once writes the pending register does not notice the pending load, unless it is an unaligned load into r0 that finds a value of 256 or more left over with nothing pending |
| `Programs.StepGoes` | nachos-3.4/code/machine/mipssim.cc:557-564 | every step that goes through executes next what was next, and what follows is four further on unless the instruction says otherwise; which registers change, and the pending load done over the result |
| `Programs.StepTraps` | nachos-3.4/code/machine/machine.cc:100-111 | a step that traps leaves the program counters and every register but BadVAddr, with the pending load done |
| `Programs.ResultArrives` | nachos-3.4/code/machine/mipssim.cc:122-565 | the result that the laws of the instruction set give for the registers as they are is in the target register after the step |
| `Programs.StraightGoesOn` | nachos-3.4/code/machine/mipssim.cc:118-565 | no instruction but branches and jumps sends control anywhere but on |
| `Programs.StraightRun` | nachos-3.4/code/machine/mipssim.cc:557-564 | n instructions in a straight line from pc on end at pc + 4n |
| `Programs.DelaySlot` | nachos-3.4/code/machine/mipssim.cc:161-229 | a branch or jump takes effect after the instruction in its delay slot |
| `Programs.LoadsBytes` | nachos-3.4/code/machine/mipssim.cc:231-343 | after a load and any next instruction, even one that traps, the register has the bytes that the program sees at the address, sign-extended, zero-extended or merged as the load has it |
| `Programs.StoresBytes` | nachos-3.4/code/machine/mipssim.cc:383-393 | SB, SH and SW leave the register's low bytes at the address, the least significant first, and no other byte of any program changes |
| `Programs.StoresParts` | nachos-3.4/code/machine/mipssim.cc:477-532 | an aligned SWL stores the word; an aligned SWR stores the register's lowest byte in the word's last, and no other byte changes |
| `Programs.StoreThenLoad` | nachos-3.4/code/machine/mipssim.cc:268-278 | a word stored and loaded from the same address is in its new register when the next instruction is over |
| `MipsLaws.DecodeEncoded` | nachos-3.4/code/machine/mipssim.cc:589-626 | what an assembler encodes is what is decoded, for every instruction |
| `MipsLaws.EncodeDecoded` | nachos-3.4/code/machine/mipssim.cc:589-626 | and every word that is not reserved is the encoding of what it decodes to, so no two words mean the same |
| `MipsLaws.SignedSum` | nachos-3.4/code/machine/mipssim.cc:125-135 | ADD traps exactly if the true sum is no C int, and else gives it |
| `MipsLaws.SignedDifference` | nachos-3.4/code/machine/mipssim.cc:457-465 | SUB likewise with the true difference |
| `MipsLaws.WrappedSums` | nachos-3.4/code/machine/mipssim.cc:149-151 | ADDU is the sum up to 2^32, and SUBU takes back what ADDU adds |
| `MipsLaws.ImmediateSums` | nachos-3.4/code/machine/mipssim.cc:136-147 | ADDI and ADDIU are ADD and ADDU on the sign-extended immediate |
| `MipsLaws.Comparisons` | nachos-3.4/code/machine/mipssim.cc:404-436 | SLT and SLTU give one exactly if the difference, of the ints or of the words, is negative |
| `MipsLaws.SignedDivision` | nachos-3.4/code/machine/mipssim.cc:195-203 | DIV: quotient times divisor plus remainder is the dividend, the remainder is smaller than the divisor and has the dividend's sign, but for the quotient that is no int |
| `MipsLaws.UnsignedDivision` | nachos-3.4/code/machine/mipssim.cc:205-217 | DIVU: quotient times divisor plus remainder is the dividend, and the remainder is smaller than the divisor |
| `MipsLaws.AndBits` | nachos-3.4/code/machine/mipssim.cc:153-159 | each bit of AND and ANDI, the immediate zero-extended |
| `MipsLaws.XorBits` | nachos-3.4/code/machine/mipssim.cc:538-545 | each bit of XOR and XORI |
| `MipsLaws.OrBits` | nachos-3.4/code/machine/mipssim.cc:379-381 | each bit of ORI |
| `MipsLaws.NorBits` | nachos-3.4/code/machine/mipssim.cc:371-373 | each bit of NOR |
| `MipsLaws.OrMoves` | nachos-3.4/code/machine/mipssim.cc:375-377 | OR as the simulator has it moves rs |
| `MipsLaws.LeftBits` | nachos-3.4/code/machine/mipssim.cc:395-402 | each bit of the shifts to the left |
| `MipsLaws.RightBits` | nachos-3.4/code/machine/mipssim.cc:436-455 | each bit of the shifts to the right, which all copy the sign |
| `MipsLaws.Opposites` | nachos-3.4/code/machine/mipssim.cc:161-193 | of BEQ and BNE, BLEZ and BGTZ, BLTZ and BGEZ, BLTZAL and BGEZAL exactly one is taken, whatever the registers hold |
| `MipsLaws.TakenIfEqual` | nachos-3.4/code/machine/mipssim.cc:161-164 | BEQ is taken exactly if the registers are equal |
| `MipsLaws.TakenBySign` | nachos-3.4/code/machine/mipssim.cc:168-187 | BLTZ and BGEZ are taken as the signed comparison with zero has it |
| `MipsLaws.Jumps` | nachos-3.4/code/machine/mipssim.cc:219-223 | a jump goes to the word that it names in the region of the instruction after the next |
| `MipsLaws.CallReturns` | nachos-3.4/code/machine/mipssim.cc:219-229 | a linking jump or branch leaves the address of the instruction after the next, and JR goes there |
| `MipsLaws.Moves` | nachos-3.4/code/machine/mipssim.cc:345-359 | what is moved to Hi or Lo is what is moved from there |
| `MipsLaws.Targets` | nachos-3.4/code/machine/mipssim.cc:122-545 | results go to rd or rt by format, links to r31 or rd |
| `MipsLaws.ReadsEnough` | nachos-3.4/code/machine/mipssim.cc:122-545 | an instruction reads every register that its plan depends on |
| `Restart.InstructionFault` | nachos-3.4/code/machine/machine.cc:100-111 | a page fault is on the fetch or on the data address, on a missing page; it commits the pending load, sets the failing address, leaves memory looking the same, and brings that page into the least free frame if there is one |
| `Restart.TwoFramesSuffice` | nachos-3.4/code/userprog/exception.cc:319-390 | with two free frames no instruction's re-execution ends in a page fault, whatever is pending |
| `Restart.OnlyOutOfFrames` | nachos-3.4/code/userprog/exception.cc:325-351 | re-execution ends in a page fault only if fewer than two frames were free, and then none is |
| `Restart.FaultCommits` | nachos-3.4/code/machine/machine.cc:100-111 | what a page fault does to an instruction, exactly: the loop ends as one execution with all pages resident and the pending load already done |
| `Restart.RestartExactly` | nachos-3.4/code/machine/mipssim.cc:93-582 | when a fault is taken, restart is precise if and only if the instruction does the same, pages resident, before and after the pending load |
| `Restart.PreciseRestart` | nachos-3.4/code/machine/mipssim.cc:93-582 | for every instruction set and every instruction that does not notice the pending load: faults, service from two free frames and re-execution give the registers (but for BadVAddr) and the memory of one execution with the pages resident |
| `Restart.PreciseExactly` | nachos-3.4/code/machine/mipssim.cc:93-582 | and only for those: if and only if, with a condition on the instruction and the registers, for register instructions and wherever the pending load does not change the plan |
| `Restart.EnoughRetried` | nachos-3.4/code/userprog/exception.cc:319-390 | with a free frame for each missing page of the running program no execution ends in a page fault, and frames stay enough |
| `Restart.InterruptedCommits` | nachos-3.4/code/machine/interrupt.cc:323-326 | an interrupt leaves the registers as the pending load leaves them, and those with nothing pending as they are |
| `Restart.ProgramNoFault` | nachos-3.4/code/machine/mipssim.cc:30-45 | so no page fault is final over any number of instructions, interrupts at any of the boundaries included |
| `Restart.ProgramUnaware` | nachos-3.4/code/machine/mipssim.cc:30-45 | up to its first trap of another kind, system calls included, a program that leaves its load delay slots alone cannot tell demand paging, with a frame for each missing page and interrupts at any boundaries, from resident memory without interrupts, over any number of instructions |
| `DelaySlots.DelaySlotReader` | nachos-3.4/code/machine/mipssim.cc:149-151 | on a concrete machine, addu reading the pending register ends otherwise after a fault on its fetch than with its page resident |
| `DelaySlots.DelaySlotWriter` | nachos-3.4/code/machine/mipssim.cc:145-147 | likewise addiu writing it |
| `Mips.ProductWords` | nachos-3.4/code/machine/mipssim.cc:361-369 | the multiplier's two words are what MULT, with a signed high word, and MULTU, with an unsigned one, put into Hi and Lo |
| `Mips.Multiply` | nachos-3.4/code/machine/mipssim.cc:361-369 | calling the multiplier carries out the plan of MULT and MULTU |
| `Processor.Cpu.DelayedLoad` | nachos-3.4/code/machine/mipssim.cc:575-582 | the pending load, the next one, and r0 zero, in the register array |
| `Processor.Cpu.RaiseException` | nachos-3.4/code/machine/machine.cc:100-107 | the failing address is set and the pending load finished |
| `Processor.Cpu.OneInstruction` | nachos-3.4/code/machine/mipssim.cc:93-565 | the in-place cycle leaves the registers and the memory that the cycle on values gives, which `Programs` describes, and reports how it ended |
| `Multiplier.AddDouble` | nachos-3.4/code/machine/mipssim.cc:665-668 | carry detection: the double-word sum is exact |
| `Multiplier.ShiftDouble` | nachos-3.4/code/machine/mipssim.cc:672-676 | the double-word shift is exact |
| `Multiplier.NegateDouble` | nachos-3.4/code/machine/mipssim.cc:683-687 | the double-word two's complement is exact |
| `Multiplier.Moves` | nachos-3.4/code/machine/mipssim.cc:664-677 | a round moves a bit's share of the product into the sum, also under the arithmetic shift of a negative multiplier |
| `Multiplier.Round` | nachos-3.4/code/machine/mipssim.cc:664-677 | one round keeps the books of the loop, or breaks with the exact product |
| `Multiplier.MultiplyBits` | nachos-3.4/code/machine/mipssim.cc:659-678 | the 32-round loop with its early break leaves the exact unsigned product |
| `Multiplier.Mult` | nachos-3.4/code/machine/mipssim.cc:635-692 | hi:lo is the exact 64-bit signed or unsigned product for all operands, the most negative int included |
| `DiskTiming.Disk.TimeToSeek` | nachos-3.4/code/machine/disk.cc:179-194 | the time until the head is on the new track, and the wait to the next sector boundary; what these are is `SeekIsTravel` and `SettledMeaning` |
| `DiskTiming.SeekIsTravel` | nachos-3.4/code/machine/disk.cc:179-194 | a seek takes exactly until a head that crosses one track every 500 ticks is on the new track |
| `DiskTiming.SeekDistances` | nachos-3.4/code/machine/disk.cc:179-194 | seeks are symmetric, take 500 ticks to a neighbouring track, and add up over a track between |
| `DiskTiming.SettledMeaning` | nachos-3.4/code/machine/disk.cc:179-194 | the head has settled at the first sector boundary at which it is on the new track |
| `DiskTiming.BoundsAttained` | nachos-3.4/code/machine/disk.cc:232-253 | the bounds 500 and 31999 are both attained |
| `DiskTiming.ModuloDiff` | nachos-3.4/code/machine/disk.cc:202-209 | how many sectors until the target is under the head, less than a full turn |
| `DiskTiming.HitTest` | nachos-3.4/code/machine/disk.cc:241-246 | the arithmetic test is exact: a read hits if and only if the track is unchanged and the sector has wholly passed the head between the buffer's start and the next boundary |
| `DiskTiming.Waits` | nachos-3.4/code/machine/disk.cc:249-252 | a miss ends just as the target sector ends under the head, the first time after the seek |
| `DiskTiming.Disk.ComputeLatency` | nachos-3.4/code/machine/disk.cc:232-253 | the latency is that of a hit or of a miss, and between 500 and 31999 ticks |
| `DiskTiming.Disk.UpdateLast` | nachos-3.4/code/machine/disk.cc:261-271 | the buffer starts afresh exactly if the head moves |
| `DiskTiming.Disk.Submit` | nachos-3.4/code/machine/disk.cc:115-153 | a request takes that latency and leaves the disk active until then |
| `DiskTiming.Disk.HandleInterrupt` | nachos-3.4/code/machine/disk.cc:161-166 | the disk takes requests again, with head and track buffer as they were |
| `DiskTiming.LatencyBounds` | nachos-3.4/code/machine/disk.cc:232-253 | every latency is within 500..31999, and the buffer's start is aligned and not after the completion |
| `DiskTiming.EveryRequestReady` | nachos-3.4/code/machine/disk.cc:115-271 | in every request sequence each request finds the buffer's start sector-aligned and not in the future, and takes 500 to 31999 ticks |
| `DiskTiming.BufferMeaning` | nachos-3.4/code/machine/disk.cc:261-271 | the buffer's start is the boundary at which the head settled on its present track, by the last request that moved it |

## Left out

- OpenFiles.OpenFile.ReadAt: does not model negative positions, which the code does not check and which make it read outside its tables.
- OpenFiles.OpenFile.WriteAt: does not model negative positions, for the same reason.
- OpenFiles.OpenFile.Seek: does not model negative positions, because no later read or write at one has a meaning.
- FileSystems.Reserve: does not model sizes above 15872, for which the code writes past the header's table.
- FileSystems.FileSystem.Create: does not model sizes above 15872, for the same reason.
- Handles of removed files: a handle is followed only while its file is in the directory.
- Bytes past the end of a file in its last sector: not preserved by the code, so contents are stated up to the length only.
- Concurrent use of the disk: sector reads and writes are sequential; `Lock` and `Condition` are empty stubs, so nothing could be claimed.
- Directories.TableRoundTrip: takes the padding bytes of a directory entry on disk as zero, because the code never reads them.
- FileHeaders.FileHeader.Allocate: does not model a size whose sector count exceeds the 62 table entries, because the code would write past the table.
- Interrupt order among equal times: putting back a head that is not yet due moves it behind its equals, so only the multiset and the order of times are stated.
- InterruptSimulator.Interrupt.OneTick: reports the wish to yield in place of calling `Yield`, because what other threads do meanwhile is further events of the run; the status is put back by such an event.
- DiskTiming.Disk.Submit: does not model the transfer of data, which `SynchDisk` models, or the call that schedules the interrupt, whose time it returns; it stands for both kinds of request.
- InterruptSimulator.Interrupt.CheckIfDue: does not model the call that finishes the processor's pending load before a handler runs, because the processor is a separate part of the model; `Restart.ProgramUnaware` says what that call means to a program.
- DiskTiming.Disk.HandleInterrupt: does not model the call of the disk user's own handler, which is the V that a waiting `SynchDisk` operation sleeps for.
- ThreadKernel.DispatchKeeps: a finished thread is gone as soon as the next thread is dispatched; the code frees its memory then or at a later switch.
- A guarantee that every joiner is woken: it is false, because a second Join on the same child overwrites the first parent; `ThreadOrder.WokenExactly` says when it holds.
- Creation of semaphores in the middle of a run: they all exist from the start.
- PagedMachine.Machine.HandlePageFault: does not model page eviction, which is unfinished in the source; without a free frame it changes nothing.
- Destruction of address spaces: the destructor clears the whole frame map, so frame ownership cannot outlast it.
- PagedMachine.Machine.Translate: does not model the TLB branch, because the configuration has none.
- PagedMachine.Machine.CreateSpace: takes the whole image as given; `SwapFiles.CreateSpace` makes it from a program's file.
- SwapFiles.CreateSpace: takes the number of pages as given, because reading it out of the program's header is left out; images above 15872 bytes are, as for any file; a failing Create ends it, where the code goes on to a null pointer or to a file left over under that name.
- SwapFiles.HandlePageFault: requires the running thread's swap file to hold its image, which `SwapFiles.CreateSpace` establishes; without a free frame it changes nothing.
- Restart.PreciseExactly: leaves out loads and stores whose address or value the pending load changes, because whether they end alike depends on what memory holds; `RestartExactly` covers them.
- Restart.ProgramUnaware: ends at the first trap that is no page fault, because what a system call does to the registers is not modelled.
- Restart.PreciseRestart: does not model other threads between a fault and the re-execution; an interrupt there finds nothing pending (`Restart.InterruptedCommits`).
- Mips.Plan: the quotient of the most negative int and -1 wraps, where the host may trap; alignment assertions of LWL, LWR, SWL and SWR that fail end the machine.
- Saving and restoring user registers on a context switch: two copy loops, which would add only easy members.
- Console, network, system calls other than Join, exec and exit, printing and debugging, the UNIX stub file system, the tools under `bin`, and the user programs.
