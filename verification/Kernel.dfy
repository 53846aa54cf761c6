// The paging kernel: the physical page table, the frame bitmap, the address
// spaces and the machine, updated in place, and the page-fault handler.
module Kernel {
  import opened Words
  import opened Paging
  import opened PagingProofs
  import opened Memory
  import opened Mips
  import opened Steps
  import opened Refinement
  import opened FaultBound
  import opened PagingRuns
  import opened Machine
  import Bitmaps
  import Lists

  class Kernel {
    const machine: Machine
    const memoryManager: Bitmaps.Bitmap
    const ppt: array<Ppe>
    var threads: seq<AddrSpace>
    var currentThread: nat
    var pageOrder: int

    // The objects are in order and apart from each other.
    ghost predicate Separate()
      reads this
    {
      && machine.mainMemory as object != machine.registers
      && memoryManager.words as object != machine.mainMemory
      && memoryManager.words as object != machine.registers
      && ppt as object != machine.mainMemory && ppt as object != machine.registers
      && ppt as object != memoryManager.words
      && Lists.NoRepeats(threads)
    }

    ghost predicate Sized()
      reads this, machine, memoryManager, machine.registers, memoryManager.words
    {
      && Separate()
      && machine.Valid() && memoryManager.Valid()
      && machine.mainMemory.Length == 128 * memoryManager.numBits
      && ppt.Length == memoryManager.numBits
      && currentThread < |threads| && machine.space == threads[currentThread]
    }

    // The paging state of the kernel.
    ghost function Vm(): Vm
      requires Sized()
      reads this, machine, memoryManager, machine.registers, memoryManager.words, machine.mainMemory, ppt, threads
    {
      Paging.Vm(FramesOf(machine.mainMemory[..], memoryManager.numBits), memoryManager.bits, ppt[..],
                seq(|threads|, s requires 0 <= s < |threads| reads this,
                    threads => Space(threads[s].pageTable, threads[s].swapFile)),
                currentThread, pageOrder)
    }

    ghost predicate Valid()
      reads this, machine, memoryManager, machine.registers, memoryManager.words, machine.mainMemory, ppt, threads
    {
      && Sized()
      && Inv(Vm())
    }

    // Kernel::Initialize, with the boot thread in an empty address space.
    constructor (numPhysPages: nat)
      requires numPhysPages > 0
      ensures Valid() && Vm() == Initial(numPhysPages)
      ensures fresh(machine) && fresh(memoryManager) && fresh(ppt)
    {
      var boot := new AddrSpace([], []);
      var m := new Machine(numPhysPages, boot);
      var bitmap := new Bitmaps.Bitmap(numPhysPages);
      machine, memoryManager := m, bitmap;
      ppt := new Ppe[numPhysPages](i => Ppe(-1, 0, NoThread));
      threads, currentThread, pageOrder := [boot], 0, 1;
      new;
      InitialInv(numPhysPages);
      ZeroFrames(m.mainMemory[..], numPhysPages);
      assert Vm().spaces == [Space([], [])];
      assert Vm() == Initial(numPhysPages);
    }

    // The loop over the PPT: the first frame with the smallest order.
    method Oldest() returns (ppn: nat)
      requires ppt.Length > 0
      ensures ppn == OldestUpTo(ppt[..], ppt.Length)
    {
      var order := ppt[0].pageOrder;
      ppn := 0;
      for i := 0 to ppt.Length
        invariant ppn < ppt.Length && order == ppt[ppn].pageOrder
        invariant ppn == if i == 0 then 0 else OldestUpTo(ppt[..], i)
      {
        if ppt[i].pageOrder < order {
          order := ppt[i].pageOrder;
          ppn := i;
        }
      }
    }

    // The write-back of the victim's page, if some thread holds the frame.
    method EvictVictim(ppn: nat)
      requires Valid() && ppn < ppt.Length && memoryManager.bits[ppn]
      modifies threads
      ensures Sized() && Vm() == Evict(old(Vm()), ppn)
    {
      ghost var vm := Vm();
      assert FrameHasEntry(vm, ppn);
      var owner := ppt[ppn].owner;
      if owner.Thread? {
        var temp, tempVpn := threads[owner.id], ppt[ppn].virtualPage;
        if temp.pageTable[tempVpn].dirty {
          temp.swapFile := temp.swapFile[tempVpn := machine.mainMemory[128 * ppn..128 * ppn + 128]];
          temp.pageTable := temp.pageTable[tempVpn := temp.pageTable[tempVpn].(dirty := false)];
        }
        temp.pageTable := temp.pageTable[tempVpn := temp.pageTable[tempVpn].(valid := false)];
      }
      forall s | 0 <= s < |threads|
        ensures Space(threads[s].pageTable, threads[s].swapFile) == Evict(vm, ppn).spaces[s]
      {
        assert vm.spaces[s] == old(Space(threads[s].pageTable, threads[s].swapFile));
      }
      assert Vm().spaces == Evict(vm, ppn).spaces;
    }

    // Copies a page into the main memory.
    method CopyPage(base: nat, page: Page)
      requires base + 128 <= machine.mainMemory.Length
      modifies machine.mainMemory
      ensures machine.mainMemory[..] == Splice(old(machine.mainMemory[..]), base, page)
    {
      var mem := machine.mainMemory;
      for k := 0 to 128
        invariant forall j :: 0 <= j < mem.Length ==>
                    mem[j] == if base <= j < base + k then page[j - base] else old(mem[j])
      {
        mem[base + k] := page[k];
      }
    }

    // A page goes into a frame, byte by byte.
    method PutPage(ppn: nat, page: Page)
      requires ppn < memoryManager.numBits && machine.mainMemory.Length == 128 * memoryManager.numBits
      modifies machine.mainMemory
      ensures FramesOf(machine.mainMemory[..], memoryManager.numBits) ==
              old(FramesOf(machine.mainMemory[..], memoryManager.numBits))[ppn := page]
    {
      var n := memoryManager.numBits;
      SpliceInFrame(machine.mainMemory[..], n, ppn, 0, page);
      CopyPage(128 * ppn, page);
      assert Splice(FramesOf(old(machine.mainMemory[..]), n)[ppn], 0, page) == page;
    }

    // The frame is zeroed, then loaded with the page.
    method LoadPage(ppn: nat, page: Page)
      requires ppn < memoryManager.numBits && machine.mainMemory.Length == 128 * memoryManager.numBits
      modifies machine.mainMemory
      ensures FramesOf(machine.mainMemory[..], memoryManager.numBits) ==
              old(FramesOf(machine.mainMemory[..], memoryManager.numBits))[ppn := page]
    {
      PutPage(ppn, seq(128, i => 0));
      PutPage(ppn, page);
    }

    // AddrSpace::Load, past the object file: the pages are in the swap file
    // and the loop makes a page table in which none is loaded.
    method Load(swap: seq<Page>)
      requires Valid()
      modifies this`threads
      ensures Valid() && Vm() == LoadProgram(old(Vm()), swap)
    {
      hide Inv;
      ghost var vm := Vm();
      var table: seq<Pte> := [];
      for i := 0 to |swap|
        invariant table == seq(i, v => Pte(v, -1, false, false, false, false))
        modifies {}
      {
        table := table + [Pte(i, -1, false, false, false, false)];
      }
      var space := new AddrSpace(table, swap);
      LoadKeepsInv(vm, swap);
      threads := threads + [space];
      assert Vm().spaces == LoadProgram(vm, swap).spaces;
    }

    // AddrSpace::RestoreState: the machine gets the thread's page table.
    method RestoreState(s: nat)
      requires Valid() && s < |threads|
      modifies this`currentThread, machine
      ensures Valid() && Vm() == SwitchTo(old(Vm()), s)
    {
      hide Inv;
      ghost var vm := Vm();
      SwitchKeepsInv(vm, s);
      currentThread := s;
      machine.space := threads[s];
      assert Vm().spaces == vm.spaces;
    }

    // One turn of the destructor's loop: the frame of a loaded page.
    method FreePage(ppn: nat)
      requires Sized() && Shape(Vm()) && ppn < ppt.Length
      modifies memoryManager`bits, memoryManager.words, machine.mainMemory, ppt
      ensures Sized() && Vm() == FreeOne(old(Vm()), ppn)
    {
      hide FramesOf, Bitmaps.BitAt;
      ghost var vm := Vm();
      ppt[ppn] := Ppe(-1, ppt[ppn].pageOrder, NoThread);
      PutPage(ppn, seq(128, i => 0));
      memoryManager.Clear(ppn);
      assert Vm().spaces == vm.spaces;
      assert Vm().ppt == FreeOne(vm, ppn).ppt;
    }

    // AddrSpace::~AddrSpace, for a thread that is not running: the frames of
    // its loaded pages are zeroed and freed, then the page table and the swap
    // file are gone.
    method EndSpace(s: nat)
      requires Valid() && s < |threads| && s != currentThread
      modifies threads[s], memoryManager`bits, memoryManager.words, machine.mainMemory, ppt
      ensures Valid() && Vm() == Release(old(Vm()), s)
    {
      hide InvBut, Release, ReleasePages, FreeOne, Sized;
      ghost var vm := Vm();
      InvShape(vm);
      ReleaseEnds(vm, s);
      ReleaseKeepsInv(vm, s);
      var n := |threads[s].pageTable|;
      assert n == |vm.spaces[s].table|;
      for i := 0 to n
        invariant Sized() && Vm() == ReleasePages(vm, s, i)
        invariant threads == old(threads) && threads[s].pageTable == vm.spaces[s].table
      {
        ReleaseNext(vm, s, i);
        if threads[s].pageTable[i].valid {
          FreePage(threads[s].pageTable[i].physicalPage);
        }
      }
      Forget(s);
    }

    method Forget(s: nat)
      requires Sized() && s < |threads| && s != currentThread
      modifies threads[s]
      ensures Sized() && Vm() == old(Vm()).(spaces := old(Vm()).spaces[s := Space([], [])])
    {
      ghost var vm := Vm();
      threads[s].pageTable, threads[s].swapFile := [], [];
      forall t | 0 <= t < |threads|
        ensures Space(threads[t].pageTable, threads[t].swapFile) == vm.spaces[s := Space([], [])][t]
      {
        assert vm.spaces[t] == old(Space(threads[t].pageTable, threads[t].swapFile));
      }
      assert Vm().spaces == vm.spaces[s := Space([], [])];
    }

    // The new page table and PPT entries, and the page itself.
    method InstallPage(ppn: nat, vpn: nat)
      requires Sized() && Shape(Vm()) && ppn < ppt.Length && vpn < |threads[currentThread].pageTable|
      modifies this`pageOrder, threads[currentThread], machine.mainMemory, ppt
      ensures Sized() && Vm() == Install(old(Vm()), ppn, vpn)
    {
      ghost var vm := Vm();
      assert vm.spaces[currentThread] == Space(machine.space.pageTable, machine.space.swapFile);
      var space := machine.space;
      space.pageTable := space.pageTable[vpn := Pte(vpn, ppn, true, false, false, false)];
      ppt[ppn] := Ppe(vpn, pageOrder, Thread(currentThread));
      pageOrder := pageOrder + 1;
      LoadPage(ppn, threads[currentThread].swapFile[vpn]);
      forall s | 0 <= s < |threads|
        ensures Space(threads[s].pageTable, threads[s].swapFile) == Install(vm, ppn, vpn).spaces[s]
      {
        assert vm.spaces[s] == old(Space(threads[s].pageTable, threads[s].swapFile));
      }
      assert Vm().spaces == Install(vm, ppn, vpn).spaces;
      assert Vm().ppt == Install(vm, ppn, vpn).ppt;
    }

    // A free frame, or the oldest one after its page has been evicted.
    method TakeFrame() returns (ppn: nat)
      requires Valid()
      modifies threads, memoryManager`bits, memoryManager.words
      ensures Sized() && ppn == FrameFor(old(Vm())) && Vm() == FreeFrame(old(Vm()))
    {
      hide EntriesOwnFrames, FramesHaveEntries, OrdersDistinct, CleanMatchesSwap, Evict;
      ghost var vm := Vm();
      var found := memoryManager.FindAndSet();
      if found == -1 {
        ppn := Oldest();
        assert Vm() == vm;
        EvictVictim(ppn);
      } else {
        ppn := found;
        assert Vm() == vm.(bits := vm.bits[ppn := true]);
      }
    }

    // Kernel::allocatePage, up to the restart of the instruction.
    method AllocatePage(address: Word)
      requires Valid() && Faults(Vm(), address / 128)
      modifies this`pageOrder, threads, memoryManager`bits, memoryManager.words, machine.mainMemory, ppt
      ensures Valid() && Vm() == Paging.AllocatePage(old(Vm()), address / 128)
    {
      hide EntriesOwnFrames, FramesHaveEntries, OrdersDistinct, CleanMatchesSwap, FreeFrame, FrameFor, Install;
      ghost var vm := Vm();
      var vpn: nat := address / 128;
      var ppn := TakeFrame();
      FreeKeepsInv(vm);
      TableOfCurrent(vpn);
      InstallPage(ppn, vpn);
      AllocateCorrect(vm, vpn);
    }

    lemma TableOfCurrent(vpn: nat)
      requires Sized() && InTable(Vm(), Vm().cur, vpn)
      ensures vpn < |threads[currentThread].pageTable|
    {
    }

    // One attempt at the current instruction.
    method Attempt() returns (exc: Exception)
      requires Valid()
      modifies machine.registers, machine.mainMemory, machine.space`pageTable
      ensures Valid()
      ensures Ends(PagedStep(old(machine.Cpu()), old(Vm())), exc, machine.Cpu(), Vm())
    {
      hide Inv, PagedStep;
      ghost var vm, cpu := Vm(), machine.Cpu();
      InvShape(vm);
      assert vm.spaces[vm.cur] == Space(machine.space.pageTable, machine.space.swapFile);
      ghost var vm';
      exc, vm' := machine.OneInstruction(vm);
      StepIsLocal(cpu, vm);
      AttemptInv(cpu, vm);
      forall s | 0 <= s < |threads|
        ensures Space(threads[s].pageTable, threads[s].swapFile) == vm'.spaces[s]
      {
        assert vm.spaces[s] == old(Space(threads[s].pageTable, threads[s].swapFile));
      }
      assert Vm().spaces == vm'.spaces;
    }

    // Runs the current instruction until it completes or raises an exception
    // other than a page fault; the fault handler restarts it.
    method RunInstruction() returns (exc: Exception)
      requires Valid() && memoryManager.numBits >= 2
      modifies this`pageOrder, threads, memoryManager`bits, memoryManager.words,
               machine.registers, machine.mainMemory, ppt
      ensures Valid() && exc != PageFaultException
      ensures var vm, cpu := old(Vm()), old(machine.Cpu());
              Served(vm, FlatStep(StartOf(cpu, vm), Flat(vm, vm.cur)), exc, machine.Cpu(), Vm())
    {
      hide Inv, PagedStep, FlatStep, Flat, Paging.AllocatePage, StartOf;
      ghost var vm0, cpu0: CpuState := Vm(), machine.Cpu();
      ghost var vm, cpu: CpuState, n := vm0, cpu0, 3;
      ThreeFaultsSuffice(cpu0, vm0);
      exc := Attempt();
      while exc == PageFaultException
        invariant Valid() && Inv(vm)
        invariant Ends(PagedStep(cpu, vm), exc, machine.Cpu(), Vm())
        invariant 0 <= n && Retry(cpu0, vm0, 3) == Retry(cpu, vm, n) && !IsFault(Retry(cpu, vm, n))
        invariant machine.space == threads[currentThread]
        decreases n
      {
        AttemptRefines(cpu, vm);
        AllocatePage(machine.Cpu().badVAddr);
        vm, cpu, n := Vm(), machine.Cpu(), n - 1;
        exc := Attempt();
      }
      RetryRefines(cpu0, vm0, 3);
    }
  }

  lemma ZeroFrames(mem: seq<Byte>, n: nat)
    requires |mem| == 128 * n && forall i :: 0 <= i < |mem| ==> mem[i] == 0
    ensures FramesOf(mem, n) == seq(n, i => seq(128, j => 0))
  {
    forall p | 0 <= p < n
      ensures FramesOf(mem, n)[p] == seq(128, j => 0)
    {
    }
  }

  lemma AttemptInv(c: CpuState, vm: Vm)
    requires Inv(vm)
    ensures Inv(PagedStep(c, vm).mem)
  {
    hide Inv, PagedStep, FlatStep, Flat;
    AttemptRefines(c, vm);
  }

  // The instruction has ended as the flat one does.
  ghost predicate Served(vm: Vm, flat: Outcome<seq<Byte>>, exc: Exception, cpu: Cpu, vm': Vm) {
    && Follows(vm, vm')
    && Same(cpu, flat.cpu)
    && (flat.Completed? ==> exc == NoException)
    && (flat.Raised? ==> exc == flat.exc && cpu == flat.cpu)
    && flat.mem == Flat(vm', vm.cur)
  }
}
