# A verified model of Nachos

Nachos is a teaching operating system that runs on a simulated MIPS machine
with interrupts, a disk and a network.  This project models its hardest parts
in Dafny and proves what they promise.  Citations of `Project2` are to the
kernel with demand paging; its `filesys`, `lib`, `network` and `machine`
directories are shared with `Project1`, from which only the processes, their
scheduler and Join are taken.

`dafny verify dfyconfig.toml` checks everything.

## What is modelled

- **Demand paging** (`Paging`, `PagingProofs`, `Memory`, `Kernel`,
  `PagingRuns`, `PagingEffects`).  Frames, the frame bitmap, the physical page table, the page
  tables and the swap files, with any number of frames, address spaces and
  pages.  `Kernel` does it on arrays and objects as the source does; `Paging`
  says what that computes on one value.  A page's contents are its frame if it
  is loaded and its swap page otherwise; no page fault changes the contents of
  any page of any space.
- **The processor** (`Words`, `Bits`, `Mips`, `Multiply`, `Division`,
  `Shifts`, `Steps`, `Delays`, `Machine`, `Unaligned`, `ByteOrder`, `Encoding`,
  `Instructions`).  The whole instruction set on 32-bit words with explicit
  wrap-around: delayed loads, delayed branches, exceptions, unaligned access,
  the two-word multiplication.  `Instructions.StepExact` says what every
  instruction does in numbers and bits, from its encoding in memory to the
  registers and bytes it leaves, apart from the functions that compute it.
- **The main theorem** (`Refinement`, `FaultBound`, `Hazards`, `ProgramRuns`,
  `EarlyLoad`, `Kernel.Kernel.RunInstruction`).  An instruction executed on the
  paged machine, restarted after each page fault, ends as one step on a flat
  memory that never faults.  With a delayed load pending this holds of the
  state in which that load has completed, because a trap completes it early.
  `Hazards` says exactly when that shows, and gives a condition on the
  instruction under which it never does; `EarlyLoad.DemandPagingShows` is a
  program on which it does.  `ProgramRuns` is the theorem for whole programs:
  any number of address spaces, with context switches, faults, interrupts and
  exceptions at any point, each do what they do alone on a flat memory.
- **The file system** (`Layout`, `Formats`, `Files`, `Bitmaps`, `Directory`,
  `FileHeader`, `Ownership`, `Volume`, `FileSystem`, `FileNames`).  Everything is read from
  and proved about the 1024 x 128 bytes of the disk: words, headers, the free
  map and the directory have proved encodings, a file is an array of bytes, and
  every sector of every reachable disk is marked if and only if it is exactly
  one block of exactly one file.
- **Synchronisation** (`Semaphores`, `Queues`, `Monitors`, `SynchLists`).
  State machines whose steps are the stretches of code between two points where
  the running thread can change, with arbitrary scheduling, next to the classes
  whose methods are those stretches; `MonitorObjects` proves that the methods
  do to the objects what the steps do to the state.
- **The post office** (`Network`, `PostOffice`, `Sending`), the **interrupt
  simulator** (`Lists`, `Interrupts`, `Requests`), the **hash table**
  (`HashTables`), the **priority scheduler** (`Processes`, `Quanta`), **Join**
  (`Joins`) and the **disk's timing** (`DiskTiming`).

Classes hold what the source updates in place; their methods are proved equal
to functions on values, and the properties are proved about those functions
and about all runs of them.  `assert` statements marked as the source's ASSERT
are assertions of the source that are proved never to fail.

## Where the code and its documentation differ

The model follows the code.

- SRL and SRLV shift a signed temporary, so they copy the sign as SRA does
  (`Project2/code/machine/mipssim.cc:520-530`).  `Shifts.LogicalShiftIff` says
  exactly when they still shift zeros in, `Shifts.ShiftedSign` is a word for
  which they do not.
- Create does not check that a file fits its header, which describes 30
  sectors, and writes past the array in the header if it does not
  (`Project2/code/filesys/filehdr.cc:43-58`).  `FileSystem.FileSystem.Create`
  says exactly when; `FileSystem.FreshOverruns` gives the sizes for which it
  happens on a fresh disk.
- Create accepts negative sizes too.  The disk is then not well formed:
  `FileSystem.FileSystem.Create` says so in both directions.
- ReadAt and WriteAt do not reject a negative position, and the sum in their
  clip is of two host ints, which wraps around
  (`Project2/code/filesys/openfile.cc:122-137`).  `Files.InsideIff` says that
  exactly the requests that pass the check with a negative position, or with an
  end of 2^31 or more, lead outside the header or the buffer;
  `Files.OutsideBoth` has one of each.
- The ready list compares priorities by a difference of host ints, which wraps
  around (`Project1/code/threads/scheduler.cc:28-31`).
  `Processes.TwoSortedIff` says that it orders two processes rightly if and
  only if their priorities are less than 2^31 apart; `Processes.FarPriorities`
  is a run in which a process of low priority runs while one of high priority
  is ready.
- Join is to wait for all children
  (`Project1/code/threads/process.cc:226-254`), but a child that terminates
  while its parent is not waiting is not counted.  `Joins.LastChildWakesIff`
  says that the last child wakes the parent if and only if there was none such;
  if there was, the parent waits for ever (`Joins.WaitsForEver`).
- A one-byte read goes through a plain `char`, which the host sign-extends
  (`Project2/code/machine/translate.cc:100-103`); LB and LBU mask it again.
- `NetworkOutput::Send` asserts that `sendBusy` is false, but nothing ever sets
  it (`Project2/code/machine/network.cc:158-182`); that only one packet is out
  at a time is due to the lock and the semaphore of the post office, and is
  proved of those.
- The scheduler's header comment says straight FIFO
  (`Project1/code/threads/scheduler.cc:12-18`); the ready list is sorted by
  priority, and only equals are FIFO.
- Directory entries keep ten bytes for a name, and names are compared on nine
  (`Project2/code/filesys/directory.cc:89-97`), so names that agree on nine
  characters are one name.

## Model

| member | source | states |
|---|---|---|
| `Multiply.Mult` | Project2/code/machine/mipssim.cc:771-828 | for every pair of 32-bit operands and both kinds of arithmetic, hi:lo read as a (signed or unsigned) 64-bit number is the exact product, and hi and lo are its two words |
| `Multiply.Accumulate` | Project2/code/machine/mipssim.cc:795-814 | the shift-and-add loop, with its early exit, its carries and its arithmetic right shift of a host int, leaves the exact 64-bit product of the two magnitudes |
| `Multiply.AddDouble` | Project2/code/machine/mipssim.cc:801-804 | adding two double words in two halves, with the carry detected by wrap-around, is exact while the sum fits 64 bits |
| `Multiply.ShiftDouble` | Project2/code/machine/mipssim.cc:808-812 | the two-word left shift is doubling modulo 2^64 |
| `Multiply.TakeSign` | Project2/code/machine/mipssim.cc:782-791 | the unsigned reading of the negated operand is its magnitude, also for the most negative one, and the sign is flipped exactly for a negative operand |
| `Multiply.Negate` | Project2/code/machine/mipssim.cc:818-824 | complementing both words and adding one with carry negates the double word |
| `Mips.Decode` | Project2/code/machine/mipssim.cc:724-763 | every 32-bit word decodes to an operation that the instruction switch has a case for, so its ASSERT(FALSE) is never reached, with register numbers below 32 |
| `Encoding.DecodesBack` | Project2/code/machine/mipssim.cc:724-763 | decoding the word of an instruction, built from its fields by the instruction formats, gives the instruction back, for every operation, registers and immediate field |
| `Encoding.EncodesBack` | Project2/code/machine/mipssim.cc:724-763 | every word that decodes to an implemented operation is the word of exactly that instruction |
| `Instructions.StepExact` | Project2/code/machine/mipssim.cc:120-702 | one step on a flat memory executes the instruction whose encoding is the word at the program counter, and ends as is said of it; with no such instruction it is an illegal-instruction exception, and with no such word an address error |
| `Instructions.ExecuteExact` | Project2/code/machine/mipssim.cc:149-702 | every instruction with any operands: the register it sets and the value, when a branch is taken and where it goes, what it loads and into which register, the bytes it stores, its exception; which other registers keep their values; that the pending load lands, that register 0 stays zero, and where execution goes on |
| `Instructions.ComputesExact` | Project2/code/machine/mipssim.cc:155-560 | sums and differences exactly or modulo 2^32, the trapping ones if and only if the exact result does not fit; AND, OR, XOR, NOR and their immediates bit by bit; every shift and LUI bit by bit; SLT and its kin by the sign of the exact difference |
| `Instructions.PairsExact` | Project2/code/machine/mipssim.cc:227-445 | HI and LO together are the exact product, or quotient and remainder |
| `Instructions.TargetExact` | Project2/code/machine/mipssim.cc:193-262 | where each branch and jump goes: four times the offset past NextPC if its condition on the signed registers holds, NextPC + 4 if not; the top four bits of NextPC + 4 with four times the index; the register |
| `Mips.AddOverflowExact` | Project2/code/machine/mipssim.cc:157-175 | the sign-bit test of ADD and ADDI traps if and only if the signed sum does not fit 32 bits |
| `Mips.SubOverflowExact` | Project2/code/machine/mipssim.cc:532-540 | the sign-bit test of SUB traps if and only if the signed difference does not fit 32 bits |
| `Division.DivisionExact` | Project2/code/machine/mipssim.cc:227-249 | for every non-zero divisor DIVU and DIV leave the quotient in LO and the remainder in HI: dividend = quotient * divisor + remainder, remainder smaller than the divisor and of the dividend's sign; only -2^31 / -1 wraps around |
| `Division.TruncatedDivision` | Project2/code/machine/mipssim.cc:227-236 | host division rounds towards zero |
| `Mips.Finish` | Project2/code/machine/mipssim.cc:691-718 | after every completed instruction register 0 is zero and the pending load is into a real register |
| `Mips.Trapped` | Project2/code/machine/machine.cc:100-110 | an exception leaves no load pending and register 0 zero |
| `Delays.InstructionFollows` | Project2/code/machine/mipssim.cc:691-718 | for every instruction: a pending load lands by its end, even against the instruction's own write or an exception; the next instruction is the one that was next; an exception leaves the memory, the program counters and, but for that load, the registers as they were |
| `Delays.DelaySlot` | Project2/code/machine/mipssim.cc:691-718 | of two instructions in a row the first decides where the third is fetched from, and a load started by the first has landed by then |
| `Delays.OnlyBranchesBranch` | Project2/code/machine/mipssim.cc:149-154 | no instruction but a branch or jump changes where the instruction after the next one is |
| `Unaligned.StoreRightExact` | Project2/code/machine/mipssim.cc:611-668 | SWR at a stores the low bytes of the register from a to the end of a's word and changes no other byte |
| `Unaligned.StoreLeftExact` | Project2/code/machine/mipssim.cc:552-610 | SWL at a stores the high bytes of the register from the start of a's word up to a and changes no other byte |
| `Unaligned.StorePair` | Project2/code/machine/mipssim.cc:552-668 | SWR(a) then SWL(a+3) completes and stores the register in exactly the bytes a to a+3 |
| `Unaligned.LoadPair` | Project2/code/machine/mipssim.cc:312-418 | LWR(a) and LWL(a+3) in either order, the second one merging with the load the first has pending, deliver the unaligned word at a and change no memory |
| `Unaligned.WordAtStored` | Project2/code/machine/mipssim.cc:312-668 | the word at a after the store pair is the register stored |
| `Unaligned.RoundTrip` | Project2/code/machine/mipssim.cc:312-668 | SWR, SWL, LWR, LWL in a row and any fifth instruction: the target register then holds what the stored register held, for every address and every pair of registers |
| `Unaligned.LoadPairThroughFault` | Project2/code/machine/mipssim.cc:312-418 | if the second half of a load pair faults, which completes the first half early, the pair still brings in the word |
| `Shifts.ShiftRightExact` | Project2/code/machine/mipssim.cc:511-530 | the host's right shift divides the signed value rounding down, and is the unsigned quotient plus the copies of the sign bit |
| `Shifts.ShiftRightBit` | Project2/code/machine/mipssim.cc:511-530 | the right shift moves every bit down and fills up with the sign bit |
| `Shifts.ShiftLeftBit` | Project2/code/machine/mipssim.cc:470-477 | the left shift moves every bit up and fills up with zeros |
| `Shifts.LogicalShiftIff` | Project2/code/machine/mipssim.cc:520-530 | SRL and SRLV are the logical shift if and only if the amount is 0 or the sign bit is clear |
| `Shifts.ShiftedSign` | Project2/code/machine/mipssim.cc:520-524 | SRL of 0x80000000 by 1 gives 0xc0000000 and not 0x40000000 |
| `Memory.ReadAfterWrite` | Project2/code/machine/translate.cc:85-167 | what is written little-endian is read back: words exactly, shorter stores cut and extended again |
| `ByteOrder.WriteExact` | Project2/code/machine/translate.cc:136-167 | a write of 1, 2 or 4 bytes happens if and only if the address is a multiple of the size and the bytes are there; the bytes at the address, the first one worth least, then make the value modulo 256 to the size, and every other byte is as it was |
| `ByteOrder.ReadExact` | Project2/code/machine/translate.cc:86-120 | a read happens under the same condition and gives the number the bytes make, but that a single byte comes sign-extended |
| `Memory.TranslateCases` | Project2/code/machine/translate.cc:184-251 | in any reachable state translation fails with an address error exactly where the flat memory fails, faults exactly on table pages that are not loaded, and never ends in a bus error or a read-only error |
| `Memory.ReadMemRefines` | Project2/code/machine/translate.cc:85-120 | a read returns what the flat memory of the current space returns, or its failure, or faults; it keeps every invariant and the contents of every page |
| `Memory.WriteMemRefines` | Project2/code/machine/translate.cc:135-167 | a write changes exactly the addressed bytes of the current space and nothing of any other space, or fails as the flat memory does, or faults; it keeps every invariant |
| `Memory.TouchKeeps` | Project2/code/machine/translate.cc:244-246 | setting the use and dirty bits keeps every invariant and the contents of every page |
| `PagingEffects.AccessMarks` | Project2/code/machine/translate.cc:244-246 | a read sets the use bit of its page, a write the use bit and the dirty bit, and no other bit or entry changes |
| `Machine.Machine.Translate` | Project2/code/machine/translate.cc:184-251 | the in-place translation returns the exception, physical address and updated entry of the specification |
| `Machine.Machine.ReadMem` | Project2/code/machine/translate.cc:85-120 | reading the byte array is reading the frame of the paging state |
| `Machine.Machine.WriteMem` | Project2/code/machine/translate.cc:135-167 | writing the byte array is writing the frame of the paging state, and a failed write changes nothing |
| `Paging.OldestUpTo` | Project2/code/threads/kernel.cc:271-278 | the victim has the smallest allocation order, and is the first frame that has it |
| `PagingProofs.EvictKeepsInv` | Project2/code/threads/kernel.cc:280-291 | evicting a page keeps every ownership, order and dirty-bit invariant, but for the frame that is left in between |
| `PagingProofs.EvictKeepsContents` | Project2/code/threads/kernel.cc:280-291 | evicting a page, written back only if dirty, changes the contents of no page of any space |
| `PagingProofs.InstallKeepsInv` | Project2/code/threads/kernel.cc:294-312 | loading the page into the frame in between restores every invariant |
| `PagingProofs.InstallKeepsContents` | Project2/code/threads/kernel.cc:294-312 | loading the page changes the contents of no page of any space |
| `PagingProofs.AllocateCorrect` | Project2/code/threads/kernel.cc:261-312 | servicing any fault keeps every invariant and the contents of every page of every space, and the faulting page is then loaded |
| `PagingProofs.VictimIsOldest` | Project2/code/threads/kernel.cc:269-278 | with memory full the victim is the head of the queue of allocations |
| `PagingProofs.AllocateIsFifo` | Project2/code/threads/kernel.cc:261-306 | page allocation is a queue: a free frame is appended, and with memory full the head's frame moves to the tail |
| `PagingEffects.FrameTaken` | Project2/code/threads/kernel.cc:264-278 | a fault takes the first free frame, and with memory full the one allocated longest ago |
| `PagingEffects.AllocateExact` | Project2/code/threads/kernel.cc:261-312 | what a fault changes: the page's entry, which is then valid, unused and clean; the frame, which gets the swap page; its bit and its PPT entry; the entry of the page that was there, which becomes invalid, with its swap page written if and only if it was dirty; and nothing else of any space |
| `Kernel.Kernel.constructor` | Project2/code/threads/kernel.cc:87-114 | Initialize gives the initial paging state, in which every invariant holds |
| `Kernel.Kernel.Oldest` | Project2/code/threads/kernel.cc:271-278 | the loop with running order and frame number finds the first frame of the smallest order |
| `Kernel.Kernel.EvictVictim` | Project2/code/threads/kernel.cc:280-291 | the in-place eviction of the victim is the specification's |
| `Kernel.Kernel.InstallPage` | Project2/code/threads/kernel.cc:294-312 | the in-place update of page table, PPT, order counter and main memory is the specification's |
| `Kernel.Kernel.AllocatePage` | Project2/code/threads/kernel.cc:261-312 | the whole handler, on arrays and objects, keeps every invariant and computes the specified state |
| `Kernel.Kernel.Load` | Project2/code/userprog/addrspace.cc:205-214 | given the pages of the swap file, the loop makes a page table with no page loaded, and the new space is the specification's |
| `Kernel.Kernel.RestoreState` | Project2/code/userprog/addrspace.cc:302-306 | gives the machine the page table of the thread switched to, as specified |
| `Kernel.Kernel.EndSpace` | Project2/code/userprog/addrspace.cc:91-110 | the loop over the page table, on arrays and objects, zeroes and frees exactly the frames the PPT gives to the space, and keeps every invariant |
| `PagingRuns.ReleaseNext` | Project2/code/userprog/addrspace.cc:97-105 | one turn of that loop frees the frame of a valid entry and nothing that a turn before has freed |
| `PagingRuns.ReleaseEnds` | Project2/code/userprog/addrspace.cc:97-105 | after the last turn exactly the frames of the space are free |
| `PagingRuns.LoadKeepsInv` | Project2/code/userprog/addrspace.cc:188-212 | a new space whose pages are all in its swap file keeps every invariant and every queue |
| `PagingEffects.LoadExact` | Project2/code/userprog/addrspace.cc:188-214 | the memory a new program sees is its pages, none of which is in a frame, and nothing else changes |
| `PagingRuns.SwitchKeepsInv` | Project2/code/userprog/addrspace.cc:302-306 | a context switch keeps every invariant and every queue |
| `PagingRuns.ReleaseKeepsInv` | Project2/code/userprog/addrspace.cc:91-110 | ending a space frees exactly its frames, and keeps every invariant and every page of the other spaces |
| `PagingRuns.ReleaseKeepsQueue` | Project2/code/userprog/addrspace.cc:91-110 | ending a space keeps the allocation order of the other frames |
| `PagingEffects.ReleaseExact` | Project2/code/userprog/addrspace.cc:91-110 | when a space ends, each frame that one of its valid entries named is zeroed, free and in nobody's name, and every other frame and space is as it was |
| `PagingRuns.RunsAreGood` | Project2/code/threads/kernel.cc:87-316 | in every state of every run from Initialize, of loading programs, switching, executing, faulting and ending spaces, all the invariants hold and the allocated frames form a queue |
| `PagingRuns.BitIffOneEntry` | Project2/code/threads/kernel.cc:264-306 | a frame's bitmap bit is set if and only if exactly one valid entry of all page tables maps to it, and the PPT then names exactly that space and page |
| `Bitmaps.ChangeBit` | Project2/code/lib/bitmap.cc:55-80 | marking and clearing a bit of a packed word touches that bit and no other |
| `Bitmaps.CountAfterSet` | Project2/code/lib/bitmap.cc:128-139 | setting a clear bit takes exactly one from the number of clear bits |
| `Bitmaps.Bitmap.Mark` | Project2/code/lib/bitmap.cc:55-63 | on packed words, sets the bit and no other |
| `Bitmaps.Bitmap.Clear` | Project2/code/lib/bitmap.cc:72-80 | on packed words, clears the bit and no other |
| `Bitmaps.Bitmap.Test` | Project2/code/lib/bitmap.cc:89-99 | tells the bit |
| `Bitmaps.Bitmap.FindAndSet` | Project2/code/lib/bitmap.cc:110-120 | sets and returns the first clear bit, or -1 and no change if every bit is set |
| `Bitmaps.Bitmap.NumClear` | Project2/code/lib/bitmap.cc:128-139 | counts the clear bits |
| `Refinement.AttemptRefines` | Project2/code/machine/mipssim.cc:120-702 | one attempt at an instruction over the paged memory ends as the step on the flat memory does, or faults cleanly: only a pending load has completed |
| `Refinement.StepIsLocal` | Project2/code/machine/mipssim.cc:120-702 | an attempt changes only frame contents and the current page table |
| `Refinement.FlatStepSame` | Project2/code/machine/mipssim.cc:712-718 | the flat step does not depend on the bad address register or on a load into register 0 |
| `Refinement.RetryRefines` | Project2/code/threads/kernel.cc:261-316 | however often an instruction faults and is restarted, once it gets past its faults its outcome, registers and memory of every space are those of one flat step, from the state with the pending load completed if there was a fault; the handler of another exception finds the very same registers |
| `Refinement.PagingIsInvisible` | Project2/code/threads/kernel.cc:261-316 | with no load pending the outcome is that of one flat step outright |
| `EarlyLoad.DemandPagingShows` | Project2/code/machine/machine.cc:100-110 | that is not so with a load pending, and so does not chain: a program of three instructions, run from its start on a machine with two frames, after which r1 is 7 although it is 0 after the same three instructions on the flat memory |
| `Hazards.InvisibleIff` | Project2/code/threads/kernel.cc:261-316 | whatever load is pending, an instruction that gets past its faults agrees with the flat step if and only if it did not fault or the flat step ends the same from the state with that load completed |
| `Hazards.UnnamedSame` | Project2/code/machine/mipssim.cc:149-718 | an instruction that names the register being loaded in none of its fields, or is the second half of an LWL/LWR pair that merges with it, ends the same whether or not the load has completed |
| `Hazards.InvisibleWithoutHazard` | Project2/code/threads/kernel.cc:261-316 | such an instruction agrees with the flat step whatever faults it takes |
| `ProgramRuns.SpaceRunsAlone` | Project2/code/machine/mipssim.cc:57-72 | for arbitrary programs: in every run of any number of address spaces with their own CPU states, with context switches, faults, interrupts, loading and ending of other spaces at any point, and any handler of the other exceptions, each space has the memory and registers it has alone on a flat memory after as many instructions, but that at a fault or an interrupt its pending load may complete early |
| `ProgramRuns.ProgramsRunAlone` | Project2/code/machine/mipssim.cc:57-72 | for programs none of whose instructions names a register being loaded, but to merge with it: in every such run each space has exactly the memory, and once its pending load is done the registers, of as many instructions alone |
| `FaultBound.NewestIsNoVictim` | Project2/code/threads/kernel.cc:269-278 | with two frames or more the page loaded last is never the victim |
| `FaultBound.TwoFaultsSuffice` | Project2/code/threads/kernel.cc:261-316 | with two frames or more and no load pending, from any residency, an instruction raises at most two page faults before it completes or raises another exception |
| `FaultBound.ThreeFaultsSuffice` | Project2/code/threads/kernel.cc:261-316 | with a load pending, at most three |
| `FaultBound.OneFrameNeverCompletes` | Project2/code/threads/kernel.cc:261-316 | with a single frame an instruction whose data is on another page than itself faults for ever |
| `FaultBound.OneFrameIff` | Project2/code/threads/kernel.cc:261-316 | with a single frame and no load pending, an instruction gets past its page faults if and only if it would not complete on the flat memory or has its data on no other page than itself; one retry decides it |
| `FaultBound.OneFramePendingIff` | Project2/code/threads/kernel.cc:261-316 | with a load pending it faults for ever if and only if the first attempt faults and the instruction needs two pages once that load has completed |
| `FaultBound.LoadsOnlyNeeded` | Project2/code/threads/kernel.cc:261-316 | paging is on demand: running an instruction, with its faults, loads no page but its own and that of its data |
| `Machine.Machine.DelayedLoad` | Project2/code/machine/mipssim.cc:711-718 | the in-place register update is the specification's |
| `Machine.Machine.RaiseException` | Project2/code/machine/machine.cc:100-110 | sets the bad address and completes the pending load, as specified |
| `Machine.Machine.Branch` | Project2/code/machine/mipssim.cc:193-262 | branches and jumps: link register first, then the target from the registers |
| `Machine.Machine.HiLo` | Project2/code/machine/mipssim.cc:227-445 | multiplication, division and the moves to and from HI and LO |
| `Machine.Machine.Execute` | Project2/code/machine/mipssim.cc:149-694 | the instruction switch on the register and memory arrays ends as the specification says |
| `Machine.Machine.OneInstruction` | Project2/code/machine/mipssim.cc:120-702 | fetch, decode, execute and advance, on the register and memory arrays, end as the specification says |
| `Kernel.Kernel.RunInstruction` | Project2/code/threads/kernel.cc:261-316 | the loop of attempts and page allocations on the kernel's objects terminates, keeps every invariant, and ends as one flat step |
| `Layout.WordsRoundTrip` | Project2/code/filesys/filehdr.cc:83-101 | words written little-endian are read back |
| `Layout.HeaderRoundTrip` | Project2/code/filesys/filehdr.cc:83-101 | a file header written to its sector is read back |
| `Layout.BitsRoundTrip` | Project2/code/filesys/pbitmap.cc:62-79 | the free map written to its file is read back |
| `Layout.TableRoundTrip` | Project2/code/filesys/directory.cc:62-80 | the directory written to its file is read back, entry by entry |
| `Formats.HeaderExact` | Project2/code/filesys/filehdr.cc:83-101 | on disk a header is its length in bytes, its length in sectors and its thirty sectors, each a little-endian word |
| `Formats.MapExact` | Project2/code/filesys/pbitmap.cc:62-79 | on disk sector j has bit j % 8 of byte j / 8 of the free map |
| `Formats.EntryExact` | Project2/code/filesys/directory.cc:62-80 | on disk a directory entry is a flag, the little-endian sector of the header, ten bytes of name and two that fill up |
| `Files.WriteBlock` | Project2/code/filesys/openfile.cc:177-180 | writing one block of a file whose blocks differ replaces exactly its 128 bytes |
| `Files.BlockSlice` | Project2/code/filesys/filehdr.cc:113-117 | block i of a file is the sector its header names at i, whole and in order |
| `Files.TransferredMost` | Project2/code/filesys/openfile.cc:122-126 | a request transfers the most that is asked for and is there |
| `Files.OpenFile.ReadAt` | Project2/code/filesys/openfile.cc:115-142 | for every pair of host ints: tells whether the request leads outside, if and only if it passes the check with a negative position or an end of 2^31 or more; else delivers exactly min(n, length - position) bytes of the file at the position, and the rest of the buffer is unchanged |
| `Files.OpenFile.WriteAt` | Project2/code/filesys/openfile.cc:144-183 | for every pair of host ints: the same test; else, with partial first and last sectors, replaces exactly min(n, length - position) bytes of the file and touches no sector the file does not have |
| `Files.InsideIff` | Project2/code/filesys/openfile.cc:122-137 | with the clip's wrapping sum and division towards zero, a request that passes the check stays inside the header's array and its buffer if and only if its position is not negative and its end is below 2^31, and is then clipped to the file |
| `Files.OutsideBoth` | Project2/code/filesys/openfile.cc:122-137 | in a file of 100 bytes, a request at -1 and one of 2^31 - 1 bytes at 1 lead outside |
| `Files.OpenFile.PrepareBuffer` | Project2/code/filesys/openfile.cc:162-175 | reading in the partial sectors and copying the data over makes whole sectors that differ from the file only in the bytes to be written |
| `Files.OpenFile.Read` | Project2/code/filesys/openfile.cc:73-79 | for every seek position: reads there and moves it on by what was read, with the test of ReadAt |
| `Files.OpenFile.Write` | Project2/code/filesys/openfile.cc:81-87 | for every seek position: writes there and moves it on by what was written, with the test of WriteAt |
| `Files.WriteThenRead` | Project2/code/filesys/openfile.cc:115-183 | reading where was just written gives the slice that was written |
| `Files.WriteKeepsOthers` | Project2/code/filesys/openfile.cc:144-183 | writing a file leaves the bytes of every file with other sectors as they were |
| `Ownership.ChosenNext` | Project2/code/filesys/filehdr.cc:51-56 | n+1 searches of the free map find what n searches find and then the first sector still clear |
| `Ownership.ChosenLowest` | Project2/code/filesys/filehdr.cc:51-56 | the sectors taken are the lowest clear ones, in ascending order |
| `Ownership.CreateKeeps` | Project2/code/filesys/filesys.cc:188-209 | creating a file in free sectors keeps: a sector is marked if and only if it is exactly one block of exactly one file |
| `Ownership.RemoveKeeps` | Project2/code/filesys/filesys.cc:274-281 | removing a file keeps it |
| `Ownership.CreateThenRemove` | Project2/code/filesys/filesys.cc:174-286 | creating and removing a file gives back the free map and the slots |
| `FileHeader.FileHeader.Allocate` | Project2/code/filesys/filehdr.cc:43-58 | for every host int as size: writes past its array if and only if the file needs more than 30 sectors and as many are clear; a negative size is a success with no sectors and a negative length in the header; else it succeeds if and only if enough sectors are clear, takes the first clear ones in order and marks exactly those; its ASSERT never fails |
| `FileHeader.FileHeader.Deallocate` | Project2/code/filesys/filehdr.cc:67-74 | clears exactly the file's sectors; its ASSERT holds for a listed file |
| `Directory.AddedFinds` | Project2/code/filesys/directory.cc:128-143 | after an Add the name is found at its sector, every other name where it was, and no two entries in use have the same name |
| `Directory.DroppedForgets` | Project2/code/filesys/directory.cc:152-161 | after a Remove the name is gone, other names are found where they were, and names stay distinct |
| `Directory.StoredName` | Project2/code/filesys/directory.cc:137-138 | a stored name compares as the name it was stored from, on the nine characters compared |
| `FileNames.SameNameExact` | Project2/code/filesys/directory.cc:89-97 | two names are the same if and only if they agree character by character up to the end of one of them, but no further than nine characters |
| `FileNames.EntryExact` | Project2/code/filesys/directory.cc:133-140 | a new entry holds the first nine characters of its name, zeros from the name's end on, and the sector |
| `Directory.Directory.FindIndex` | Project2/code/filesys/directory.cc:89-98 | the first entry in use with the name, or -1 |
| `Directory.Directory.Find` | Project2/code/filesys/directory.cc:107-115 | the sector of the file of that name, or -1 |
| `Directory.Directory.Add` | Project2/code/filesys/directory.cc:128-143 | succeeds if and only if the name is new and there is room; otherwise the table is unchanged |
| `Directory.Directory.Remove` | Project2/code/filesys/directory.cc:152-161 | succeeds if and only if the name is there |
| `Volume.WellformedApart` | Project2/code/filesys/filesys.cc:81-143 | on a well-formed disk the two system files and their headers do not overlap |
| `Volume.ListedReadable` | Project2/code/filesys/openfile.cc:28-35 | every listed file can be read and written whole |
| `Volume.ListedIsApart` | Project2/code/filesys/filesys.cc:174-286 | the data of a listed file is apart from the system files, from every header and from the data of every other listed file |
| `Volume.ListedWritten` | Project2/code/filesys/openfile.cc:144-183 | writing a listed file changes neither the free map, nor the directory, nor a header, nor another file, and keeps the disk well formed |
| `Volume.CreateView` | Project2/code/filesys/filesys.cc:188-209 | the three writes of Create, in their order, on the bytes of the disk, are the creation of a file in the ownership, and keep the disk well formed |
| `Volume.RemoveView` | Project2/code/filesys/filesys.cc:274-281 | the two writes of Remove, in their order, are the removal of a file in the ownership, and keep the disk well formed |
| `FileSystem.FileSystem.Format` | Project2/code/filesys/filesys.cc:81-126 | formatting succeeds, its ASSERTs hold, and the disk is well formed with the system files in sectors 0 to 4 and an empty directory |
| `FileSystem.FileSystem.Create` | Project2/code/filesys/filesys.cc:174-216 | for every host int as size: if the name is new, the directory has room and there are sectors for header and data, overruns the header if the file has more than 30 sectors and succeeds if it has not; fails otherwise; the disk stays well formed if and only if it fails or the size is not negative; without success nothing on disk is changed |
| `FileSystem.FreshOverruns` | Project2/code/filesys/filesys.cc:174-216 | on a disk just formatted Create overruns the header exactly for sizes from 3841 to 1018 * 128 |
| `FileSystem.FileSystem.Remove` | Project2/code/filesys/filesys.cc:256-286 | succeeds if and only if the name is listed; no ASSERT fails; keeps the disk well formed; a failed Remove changes nothing on disk |
| `FileSystem.FileSystem.Open` | Project2/code/filesys/filesys.cc:226-242 | gives null if and only if the name is not listed, and else the listed file, ready to read and write |
| `FileSystem.CreateStepKeeps` | Project2/code/filesys/filesys.cc:174-216 | a Create keeps the disk well formed, marks exactly the first free sectors, and every file listed before keeps its header and contents |
| `FileSystem.CreatedIsListed` | Project2/code/filesys/filesys.cc:174-216 | the new file is found under its name, with the size asked for, header and data in the first free sectors |
| `FileSystem.RemoveStepKeeps` | Project2/code/filesys/filesys.cc:256-286 | a Remove keeps the disk well formed and the header and contents of every listed file |
| `FileSystem.CreateThenRemoveRestores` | Project2/code/filesys/filesys.cc:174-286 | on the bytes of the disk, Create then Remove restores the free map, every listed header and the contents of every file |
| `FileNames.SecondCreateIff` | Project2/code/filesys/filesys.cc:174-216 | after one file was created another can be if and only if the two names differ within nine characters, the second was not listed, two directory entries were unused and there was room for both |
| `FileNames.FreshTakesTwo` | Project2/code/filesys/filesys.cc:174-216 | on a disk just formatted two files of names that differ within nine characters, of any sizes that fit a header, can be created one after the other |
| `FileNames.EachItsOwn` | Project2/code/filesys/filesys.cc:174-242 | of two files created one after the other each is found under its own name, at its own header, with its own size and sectors, and the second leaves the first as it was |
| `FileSystem.RunsWellformed` | Project2/code/filesys/filesys.cc:81-286 | in every state of every run of creating, removing and writing files from a format, every sector is marked if and only if it is exactly one block of exactly one file |
| `Semaphores.RunsAreGood` | Project2/code/threads/synch.cc:75-117 | in every state of every run: value = initial + completed Vs - completed Ps, nobody is both asleep and woken, and while somebody sleeps there are at least as many woken threads as units |
| `Semaphores.NoLostWakeup` | Project2/code/threads/synch.cc:75-117 | with a unit to be had and somebody asleep, some woken thread is about to take a turn and will get it |
| `Semaphores.WokenInOrder` | Project2/code/threads/synch.cc:75-117 | in every state of every run the threads asleep are those that went to sleep less those woken, in the order of going to sleep: who is asleep before another is woken before it, and a V wakes the one that has slept longest and nobody else |
| `Semaphores.Semaphore.TurnOfP` | Project2/code/threads/synch.cc:84-88 | one turn of P's loop consumes a unit, or queues the thread and leaves it asleep |
| `Semaphores.Semaphore.V` | Project2/code/threads/synch.cc:102-117 | adds a unit and wakes the thread that has slept longest |
| `Monitors.RunsAreGood` | Project2/code/threads/synch.cc:181-297 | over every interleaving of lock and condition users: value plus threads past P and not past V is 1, lockHolder is exactly the thread inside, the lock loses no wakeup, every waiter has its own live semaphore, and the wait queue holds semaphores of waiting threads only |
| `Monitors.MutualExclusion` | Project2/code/threads/synch.cc:181-203 | at most one thread holds the lock and it is lockHolder, so the assertions of Release, Wait and Signal hold |
| `Monitors.HolderAlone` | Project2/code/threads/synch.cc:292-297 | while a thread holds the lock no other thread changes the wait queue, so Broadcast's loop empties it |
| `Monitors.SignalWakesOne` | Project2/code/threads/synch.cc:272-283 | Signal on a non-empty queue wakes exactly one waiter, the first, even before that waiter has reached its P, and changes no other waiter |
| `Monitors.SignalledInOrder` | Project2/code/threads/synch.cc:244-297 | in every run waiters are signalled in the order in which they began to wait |
| `Monitors.SignalNotLost` | Project2/code/threads/synch.cc:244-283 | a signalled waiter stays signalled through every step of every thread until its own P, which succeeds |
| `Monitors.EnterKeeps` | Project2/code/threads/synch.cc:181-186 | taking hold of the lock after P, and deleting the waiter's semaphore, keeps all this; the deleted semaphore is in no queue |
| `Monitors.Lock.Release` | Project2/code/threads/synch.cc:198-203 | clears the holder and adds the unit, given its ASSERT |
| `Monitors.Condition.StartWait` | Project2/code/threads/synch.cc:244-255 | queues a fresh semaphore of value 0 and releases the lock |
| `Monitors.Condition.Signal` | Project2/code/threads/synch.cc:272-283 | takes the first semaphore off the queue and adds its unit, and no other changes |
| `Monitors.Condition.Broadcast` | Project2/code/threads/synch.cc:292-297 | the loop empties the queue and gives every waiter exactly one unit |
| `MonitorObjects.TryLockShows` | Project2/code/threads/synch.cc:181-184 | a turn of P on the lock object is the state machine's, and tells whether the thread is past it |
| `MonitorObjects.EnterShows` | Project2/code/threads/synch.cc:181-260 | taking hold of the lock object is the state machine's Enter, with the waiter's semaphore given up |
| `MonitorObjects.ReleaseShows` | Project2/code/threads/synch.cc:198-203 | Release on the objects is the state machine's Release |
| `MonitorObjects.WaitShows` | Project2/code/threads/synch.cc:244-253 | Wait on the objects, up to its P, is the state machine's Wait with a new semaphore |
| `MonitorObjects.TryWakeShows` | Project2/code/threads/synch.cc:254-255 | a turn of P on the waiter's semaphore is the state machine's |
| `MonitorObjects.SignalShows` | Project2/code/threads/synch.cc:272-283 | Signal on the objects is the state machine's Signal |
| `MonitorObjects.AppendShows` | Project2/code/threads/synchlist.cc:55-59 | Append on the objects, past P, is the state machine's Enter, Signal and Release with the item appended |
| `MonitorObjects.RemoveShows` | Project2/code/threads/synchlist.cc:73-80 | a turn of RemoveFront on the objects is the state machine's Enter and Wait if the list is empty, else Enter and Release with the first item taken |
| `SynchLists.RunsAreGood` | Project2/code/threads/synchlist.cc:51-81 | over every interleaving, statement by statement under the lock: appended items are the removed ones followed by the list, in order, and while somebody waits unsignalled there is a thread on its way for every item |
| `SynchLists.NeverFromEmpty` | Project2/code/threads/synchlist.cc:74-77 | whenever RemoveFront is about to take an item the list is not empty and the taker holds the lock |
| `SynchLists.NobodyStranded` | Project2/code/threads/synchlist.cc:51-81 | items and unsignalled waiters together: some thread is on its way |
| `SynchLists.SignalComes` | Project2/code/threads/synchlist.cc:57-58 | a signal exchanges the signaller for the waiter it wakes among the threads on their way |
| `SynchLists.SynchList.FinishAppend` | Project2/code/threads/synchlist.cc:55-59 | Append under the lock: the item at the end, one waiter signalled, the lock released |
| `SynchLists.SynchList.TurnOfRemove` | Project2/code/threads/synchlist.cc:73-80 | one turn of RemoveFront under the lock: the first item, or a place in the wait queue |
| `Lists.PlaceSplits` | Project2/code/lib/list.cc:232-260 | in a sorted list everything before the place of insertion is at most the item and everything after it greater |
| `Lists.InsertedSorted` | Project2/code/lib/list.cc:232-260 | inserting into a sorted list gives a sorted list, for every total preorder |
| `Lists.InsertedParts` | Project2/code/lib/list.cc:232-260 | inserting adds the item once and moves nothing past anything, so the item comes after all its equals |
| `Lists.InsertThenRemove` | Project2/code/lib/list.cc:149-178 | removing what was inserted restores the list |
| `Lists.WithoutSorted` | Project2/code/lib/list.cc:149-178 | removing from a sorted list leaves it sorted |
| `Lists.WithoutUnique` | Project2/code/lib/list.cc:149-178 | Remove takes out exactly the item, which is then not in the list |
| `Lists.List.Append` | Project2/code/lib/list.cc:74-90 | on linked nodes, puts the item at the end; the chain stays acyclic, with the right last node and number |
| `Lists.List.Prepend` | Project2/code/lib/list.cc:97-113 | on linked nodes, puts the item at the front |
| `Lists.List.RemoveFront` | Project2/code/lib/list.cc:124-143 | takes the first item off |
| `Lists.List.Remove` | Project2/code/lib/list.cc:149-178 | unlinks the item's node; the assertions hold |
| `Lists.List.Insert` | Project2/code/lib/list.cc:232-260 | on linked nodes, inserts before the first greater item |
| `Lists.List.IsInList` | Project2/code/lib/list.cc:186-198 | tells membership |
| `Interrupts.FireIsProgress` | Project2/code/machine/interrupt.cc:314-319 | firing an interrupt, whatever its handler schedules, leaves one fewer due, so the loop ends |
| `Interrupts.ScheduleKeeps` | Project2/code/machine/interrupt.cc:256-267 | scheduling keeps the order of firing, the lateness bound and the sum of ticks, and makes nothing due |
| `Interrupts.DrainKeeps` | Project2/code/machine/interrupt.cc:312-321 | the loop fires exactly what was due, in its order and at this time, and then nothing is due |
| `Interrupts.RunsAreGood` | Project2/code/machine/interrupt.cc:123-322 | in every state of every run, with any handlers: nothing due is pending, fired and pending interrupts are in order, and totalTicks = idle + system + user |
| `Interrupts.FiringOrder` | Project2/code/machine/interrupt.cc:280-322 | over every run interrupts fire in non-decreasing time, those of one time in the order of scheduling, never early and less than SystemTick late |
| `Requests.EachFiresOnce` | Project2/code/machine/interrupt.cc:256-322 | in every state of every run each interrupt ever asked for, by a device or a handler, either is pending with its time still to come or has fired exactly once: with the kind asked for, no sooner than fromNow ticks after it was asked for, and less than ten ticks later |
| `Requests.DrainPromised` | Project2/code/machine/interrupt.cc:312-321 | everything the handlers ask for is scheduled, counted from now, and a yield is asked for if and only if one of them asks for it |
| `Requests.TickAmounts` | Project2/code/machine/interrupt.cc:153-159 | a tick is ten ticks of system time in system mode and else one of user time, and handlers take no time |
| `Requests.IdleAmounts` | Project2/code/machine/interrupt.cc:295-302 | idling adds exactly the ticks up to the next interrupt, as idle time |
| `Interrupts.LoadLands` | Project2/code/machine/interrupt.cc:309-311 | before handlers run the pending load lands in its register, no load is pending any more, and nothing else of the processor changes |
| `Interrupts.InsertedOrdered` | Project2/code/machine/interrupt.cc:57-63 | a new interrupt goes behind those scheduled for its time |
| `Interrupts.Interrupt.Schedule` | Project2/code/machine/interrupt.cc:256-267 | inserts the interrupt, on the linked list, as specified |
| `Interrupts.Interrupt.CheckIfDue` | Project2/code/machine/interrupt.cc:280-322 | advances the clock if asked to, fires everything due, and tells whether there was anything; if so, the processor's pending load is completed first |
| `Interrupts.Interrupt.OneTick` | Project2/code/machine/interrupt.cc:147-176 | adds the tick of the mode, fires what came due, reports and clears the yield asked for |
| `Interrupts.Interrupt.SetLevel` | Project2/code/machine/interrupt.cc:123-136 | turning interrupts on takes a tick, anything else changes only the level |
| `Interrupts.Interrupt.Idle` | Project2/code/machine/interrupt.cc:207-228 | moves the clock to the next interrupt and fires what is due then, or reports that there is none |
| `HashTables.AddOnce` | Project2/code/lib/hash.cc:108-124 | adding an item whose key is new is adding it to the map |
| `HashTables.DropOnce` | Project2/code/lib/hash.cc:208-223 | taking an item out is taking its key out of the map |
| `HashTables.MapSize` | Project2/code/lib/hash.cc:271-288 | there are as many keys as items |
| `HashTables.InItsHome` | Project2/code/lib/hash.cc:88-93 | an item is in the table if and only if it is in the bucket its key hashes to |
| `HashTables.HashTable.Find` | Project2/code/lib/hash.cc:191-198 | the map's item of the key, or none |
| `HashTables.HashTable.Insert` | Project2/code/lib/hash.cc:108-124 | for any hash function, adds exactly this key to the map, growing first if need be; never more than three items a bucket on average |
| `HashTables.HashTable.GrowIfFull` | Project2/code/lib/hash.cc:114-118 | grows the table if and only if there are three items a bucket or more, to four times its buckets, with the same items |
| `HashTables.HashTable.ReHash` | Project2/code/lib/hash.cc:135-153 | makes four times the buckets, loses and duplicates nothing, and puts every item where it belongs |
| `HashTables.HashTable.Remove` | Project2/code/lib/hash.cc:208-223 | returns the map's item and takes exactly its key out of the map |
| `HashTables.HashIterator.Next` | Project2/code/lib/hash.cc:348-360 | passes exactly one item |
| `HashTables.FindNextFullBucket` | Project2/code/lib/hash.cc:250-259 | the first bucket from there on that is not empty |
| `HashTables.VisitAll` | Project2/code/lib/hash.cc:331-360 | stepping through a table meets every item exactly once |
| `Network.PayloadReadBack` | Project2/code/network/post.cc:194-215 | mail read from a buffer that starts with its payload is the mail that was sent |
| `Network.ArrivedHolds` | Project2/code/machine/network.cc:72-82 | reading a packet off the wire puts its header and payload into the device, whatever pads the packet |
| `Formats.PacketExact` | Project2/code/network/post.cc:299-322 | on the wire a packet is the three little-endian words of its header, the three of the mail's, and the data |
| `Network.NetworkInput.CallBack` | Project2/code/machine/network.cc:60-86 | asks for the next poll, and, given its ASSERT, reads a packet in if and only if the device is empty and one is there |
| `Network.NetworkInput.Receive` | Project2/code/machine/network.cc:93-103 | hands the packet over and leaves the device empty |
| `PostOffice.RunsAreGood` | Project2/code/network/post.cc:190-257 | in every state of every run: tokens plus the worker past P are 1 exactly while the device holds a packet, every message is intact wherever it is, and the messages not lost are in their order of sending |
| `PostOffice.WorkerFindsPacket` | Project2/code/network/post.cc:199-202 | the worker never takes an empty header |
| `PostOffice.MailboxInOrder` | Project2/code/network/post.cc:190-216 | what ever was in a mailbox is a selection of the messages sent to it: intact, in order, none twice, despite drops |
| `PostOffice.AbortsForMissingBox` | Project2/code/network/post.cc:210-212 | the worker's assertions fail if and only if the message is to a box there is not |
| `PostOffice.MissingBoxAborts` | Project2/code/network/post.cc:199-212 | from every start one message for box number nBoxes leads, in five steps, to the abort |
| `PostOffice.PostOfficeInput.DeliverOne` | Project2/code/network/post.cc:202-216 | one turn of the worker's loop puts the mail at the end of its box and changes no other box |
| `PostOffice.Concatenate` | Project2/code/network/post.cc:299-322 | Send's buffer holds header and data of the mail, with the lengths and sender filled in |
| `Sending.RunsAreGood` | Project2/code/network/post.cc:299-343 | over every interleaving of senders and interrupts, interrupts to come plus tokens are 1 exactly while a sender waits, and only that sender can be asleep |
| `Sending.OnePacketAtATime` | Project2/code/machine/network.cc:140-182 | a packet is given to the network only when none is out, and a sender passes its wait only after its own interrupt |
| `Processes.TwoSortedIff` | Project1/code/threads/scheduler.cc:28-31 | the wrapping comparison puts two processes in order of priority, whichever becomes ready first, if and only if their priorities are less than 2^31 apart |
| `Processes.FarPriorities` | Project1/code/threads/scheduler.cc:28-31 | a run from the start in which a process of priority -2 is given the processor while one of priority 2^31 - 1 is ready |
| `Joins.RunsAreGood` | Project1/code/threads/process.cc:226-254 | in every run each child is alive, counted, or was missed |
| `Joins.WokenIff` | Project1/code/threads/process.cc:226-254 | in every state of every run a child's termination wakes the parent if and only if the parent waits, it is the last child, and none was missed |
| `Joins.LastChildWakesIff` | Project1/code/threads/process.cc:226-254 | the last child wakes its waiting parent if and only if no child of the run terminated while the parent was not waiting |
| `Joins.WaitsForEver` | Project1/code/threads/process.cc:226-254 | once a child was missed a waiting parent waits in every continuation |
| `Joins.JoinTooLate` | Project1/code/threads/process.cc:226-254 | the shortest such run: fork, termination, Join |
| `Joins.ParentProcess.ChildTerminates` | Project1/code/threads/process.cc:231-240 | the in-place counting and waking are the specification's |
| `Processes.ReadyBehindEquals` | Project1/code/threads/scheduler.cc:63-71 | with priorities less than 2^31 apart, a process that becomes ready goes behind its equals and disturbs no other priority |
| `Processes.TurnsRotate` | Project1/code/threads/process.cc:172-223 | a process that used up its quantum goes to the end of its equals, and the first of them runs |
| `Processes.YieldKeeps` | Project1/code/threads/process.cc:172-223 | with such priorities, after every yield the running process is of the highest priority and not in the ready list |
| `Processes.SleepKeeps` | Project1/code/threads/process.cc:257-269 | so it is after every sleep |
| `Processes.RunsAreGood` | Project1/code/threads/process.cc:172-269 | in every state of every run in which the priorities of the running and ready processes are less than 2^31 apart the ready list is sorted, without repeats and without the running process, and no execution time is below -1 |
| `Processes.QuantumBound` | Project1/code/threads/alarm.cc:46-56 | in every such run, while an equal is ready no process keeps the processor through more than TIME_QUANTUM timer ticks, and the tick after that takes it away |
| `Quanta.FullQuantum` | Project1/code/threads/process.cc:172-223 | in every run, whatever the priorities, a process that does not wait and above which nobody is ready loses the processor at a yield only after the timer ticks of a full quantum since it was given it, and only to an equal |
| `Quanta.YieldIff` | Project1/code/threads/process.cc:172-223 | a yield takes the processor away if and only if somebody is ready and the process waits, or a higher priority is ready, or its quantum is used up and an equal is ready |
| `Quanta.YieldTimes` | Project1/code/threads/process.cc:186-213 | at a yield the time of the process that loses the processor, or that keeps it past its quantum, starts again from 0, and no other changes |
| `Quanta.SleepTimes` | Project1/code/threads/process.cc:257-269 | when a process sleeps the first ready one runs, with an execution time of -1, and nothing else changes |
| `Quanta.TickTimes` | Project1/code/threads/alarm.cc:46-56 | a timer tick adds one to the execution time of the running process and to no other |
| `Quanta.IdleTimes` | Project1/code/threads/process.cc:263 | while the processor idles the timer counts for the process that went to sleep, and exactly the processes that the interrupts make ready become ready |
| `Processes.Scheduler.YieldProcess` | Project1/code/threads/process.cc:172-223 | the in-place decision is the specification's; a process that stays and of which a thread has finished is told to run another of its threads |
| `Processes.Scheduler.SleepProcess` | Project1/code/threads/process.cc:257-269 | idles as long as no process is ready, whatever the interrupts do, and then decides as specified |
| `Processes.Scheduler.TimerTick` | Project1/code/threads/alarm.cc:46-56 | one more tick of execution time, then the yield it asks for |
| `Processes.Scheduler.PutReady` | Project1/code/threads/scheduler.cc:63-71 | inserts by priority, on the linked list |
| `DiskTiming.EndsPastSector` | Project2/code/machine/disk.cc:229-251 | a request not served from the track buffer ends on a sector boundary with the head having just passed its sector, and at the first such moment after the seek |
| `DiskTiming.LatencyExact` | Project2/code/machine/disk.cc:229-251 | a read of a sector of the track under the head that has passed since the buffer was emptied takes the transfer alone; any other request is done at the first moment when the whole sector has passed after the seek, of 500 ticks a track |
| `DiskTiming.BufferedIff` | Project2/code/machine/disk.cc:236-244 | a read is served from the track buffer if and only if its sector is on this track and has passed, all of it, since the buffer was emptied |
| `DiskTiming.UpdatedExact` | Project2/code/machine/disk.cc:258-268 | the head stays over the last sector asked for; the buffer is emptied when it leaves the track, and starts at the first boundary on the new one |
| `DiskTiming.BufferHasSector` | Project2/code/machine/disk.cc:236-244 | a request served from the track buffer is for a sector that has passed since the buffer was emptied |
| `DiskTiming.LatencyBounds` | Project2/code/machine/disk.cc:229-251 | every latency is at least the transfer and at most the seek, the alignment, a rotation less a sector and the transfer |
| `DiskTiming.BufferKept` | Project2/code/machine/disk.cc:258-268 | the track buffer starts on a boundary, before the request is done |
| `DiskTiming.ModuloDiff` | Project2/code/machine/disk.cc:199-206 | the number of sectors, below 32, to rotate from one to the other |
| `DiskTiming.Disk.ComputeLatency` | Project2/code/machine/disk.cc:229-251 | the arithmetic of the device is the specification's |
| `DiskTiming.Disk.ReadRequest` | Project2/code/machine/disk.cc:113-130 | one request at a time: delivers the sector, moves the head and the buffer, and asks for the interrupt after exactly the latency |
| `DiskTiming.Disk.WriteRequest` | Project2/code/machine/disk.cc:133-151 | writes the sector and no other, and is timed the same way |

## Left out

- Kernel.Kernel.constructor: the paging part of Initialize; the other objects
  the kernel makes are not modelled together.
- Kernel.Kernel.RunInstruction: the handler's recursive `machine->Run()` is a
  loop that restarts the instruction; handlers of other exceptions are outside.
- Kernel.Kernel.AllocatePage: the swap file is taken page by page, with the
  whole-page reads and writes it is used with; the disk below it is the host's.
- Kernel.Kernel.Load: the object file's format is not modelled, its pages are a
  parameter.
- PagingRuns.LoadKeepsInv: likewise, a program is its pages.
- ProgramRuns.SpaceRunsAlone: the handler of an exception other than a page
  fault is an arbitrary function of the exception and the registers; what it
  reads of the user's memory through the machine is not modelled.  The new
  program's first CPU state is a parameter.
- ProgramRuns.ProgramsRunAlone: likewise.
- Machine.Machine.RaiseException: what it does to the registers; the change to
  system mode and back and the handler's call are with the caller.
- Machine.Machine.HiLo: dividing -2^31 by -1 is undefined in C and is modelled
  as wrap-around.
- Memory.TranslateCases: the table look-up is the page table's; the TLB, which
  this configuration does not use, is not modelled.
- Unaligned.LoadPair: of the configuration with SIM_FIX, which the makefiles
  select.
- FileHeader.FileHeader.Allocate: after the write past the array, which C leaves
  undefined, nothing is said.
- FileSystem.FileSystem.Create: likewise; and what later operations do on a disk
  with a file of negative size is not modelled.
- FileSystem.RunsWellformed: a run is of completed operations on a disk without
  concurrent access, as the source assumes; a crash between the writes of one
  operation is not modelled.
- FileSystem.FileSystem.Format: the debug printing of the new structures is
  not modelled; opening a disk formatted before is the class's other
  constructor.
- Files.OpenFile.ReadAt: what a request that leads outside does from there on
  is undefined in C; the model stops before it transfers anything.
- Files.OpenFile.WriteAt: likewise.
- Monitors.RunsAreGood: a context switch is an atomic change of the running
  thread; the order in which ready threads run is arbitrary.
- Monitors.Condition.StartWait: Wait up to the P on the waiter; the rest is the
  state machine's steps TryWake, TryLock and Enter.
- Semaphores.Semaphore.TurnOfP: P itself, whose loop may go on for as long as
  other threads overtake, is modelled turn by turn.
- SynchLists.SynchList.FinishAppend: Append from where it is past P of the
  lock; the turns of P before it are `Semaphores.Semaphore.TurnOfP`.
- SynchLists.SynchList.TurnOfRemove: likewise, and up to the P of its wait;
  Apply is not modelled.
- Interrupts.Interrupt.OneTick: the yield after the tick is reported to the
  caller, with the change to system mode around it.
- Interrupts.RunsAreGood: handlers are arbitrary functions of what has fired,
  that schedule interrupts for later times and may ask for a yield.
- HashTables.HashTable.Insert: buckets are taken by the contents of their
  lists, whose linked nodes are the subject of `Lists`.
- Network.NetworkInput.CallBack: the interrupt for the next poll is given to
  the caller to schedule; the count of packets is not kept.
- PostOffice.RunsAreGood: the socket delivers what is put into it in order, as
  a local datagram socket does; mailboxes are taken by their contents, with
  `SynchLists` for the waiting.
- Processes.RunsAreGood: the threads inside a process and the join counters
  are outside; that a process waits, and when its last child wakes it, are
  arbitrary events.  Priorities do not change, as nothing calls `setPriority`.
- Quanta.FullQuantum: a process becomes ready for the first time when its first
  thread is forked (`Project1/code/threads/process.cc:164-167`), so in these
  runs it then has no execution time yet.
- Processes.Scheduler.YieldProcess: which other thread of the process then runs
  is not modelled.
- Processes.Scheduler.SleepProcess: what the calls of Idle come to is a
  parameter; deleting a process that terminates is not modelled.
- DiskTiming.Disk.ReadRequest: the UNIX file behind the disk is its array of
  sectors; the interrupt is given to the caller to schedule.
- Integer overflow of the counters of ticks, allocations, execution times and
  children: they are mathematical integers.
- Context-switch assembly, stacks, the console, the debugger, command lines,
  system calls, and the host's files and sockets.
- The extensible and distributed file systems and the object-file tools are not
  part of this model.
