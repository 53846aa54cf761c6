// How many page faults one instruction can take.
module FaultBound {
  import opened Words
  import opened Paging
  import opened PagingProofs
  import opened Memory
  import opened Mips
  import opened Steps
  import opened Refinement

  // The same pages are loaded, in the same frames and the same order.
  ghost predicate SameResidency(vm: Vm, vm': Vm) {
    && vm'.bits == vm.bits && vm'.ppt == vm.ppt && vm'.nextOrder == vm.nextOrder && vm'.cur == vm.cur
    && |vm'.spaces| == |vm.spaces|
    && (forall s :: 0 <= s < |vm.spaces| ==> |vm'.spaces[s].table| == |vm.spaces[s].table|)
    && forall s, v {:trigger Entry(vm', s, v)} :: InTable(vm, s, v) ==>
         Entry(vm', s, v).valid == Entry(vm, s, v).valid &&
         Entry(vm', s, v).physicalPage == Entry(vm, s, v).physicalPage
  }

  ghost predicate Resident(vm: Vm, v: int) {
    InTable(vm, vm.cur, v) && Entry(vm, vm.cur, v).valid
  }

  // Page v is loaded, and was loaded last of all.
  ghost predicate Newest(vm: Vm, v: int) {
    && Resident(vm, v)
    && 0 <= Entry(vm, vm.cur, v).physicalPage < |vm.ppt|
    && vm.ppt[Entry(vm, vm.cur, v).physicalPage].pageOrder == vm.nextOrder - 1
  }

  // The address an instruction accesses beside its own, or -1.
  ghost function DataAddr(c: CpuState, mem: seq<Byte>): int {
    match FlatRead(mem, c.pc, Four)
    case ReadFails(_) => -1
    case Value(raw) =>
      match EffectOf(Decode(raw), c.regs, c.nextPc)
      case LoadFrom(addr, _) => addr
      case StoreTo(addr, _, _) => addr
      case MergeAt(addr) => addr
      case _ => -1
  }

  // ------------------------------------------------- accesses and residency

  lemma ReadResidency(vm: Vm, addr: Word, size: Size)
    requires Shape(vm)
    ensures match ReadMem(vm, addr, size)
            case PagedValue(_, vm') => SameResidency(vm, vm') && Shape(vm') && Resident(vm, addr / 128)
            case PagedReadFails(exc) => exc == PageFaultException ==> !Resident(vm, addr / 128)
  {
  }

  lemma WriteResidency(vm: Vm, addr: Word, size: Size, v: Word)
    requires Shape(vm)
    ensures match WriteMem(vm, addr, size, v)
            case PagedWritten(vm') => SameResidency(vm, vm') && Shape(vm') && Resident(vm, addr / 128)
            case PagedWriteFails(exc) => exc == PageFaultException ==> !Resident(vm, addr / 128)
  {
  }

  // A fault is on the page of the instruction or on the page of its data,
  // and nothing has moved before it.
  lemma ExecuteFault(i: Instruction, c: CpuState, vm: Vm)
    requires Shape(vm) && Handled(i.op) && i.rs < 32 && i.rt < 32 && i.rd < 32
    requires IsFault(PagedExecute(i, c, vm))
    ensures var out := PagedExecute(i, c, vm);
            && SameResidency(vm, out.mem) && !Resident(vm, out.cpu.badVAddr / 128)
            && match EffectOf(i, c.regs, c.nextPc)
               case LoadFrom(addr, _) => out.cpu.badVAddr == addr
               case StoreTo(addr, _, _) => out.cpu.badVAddr == addr
               case MergeAt(addr) => out.cpu.badVAddr == addr
               case _ => false
  {
    hide EffectOf, ReadMem, WriteMem, Resident, SameResidency, Shape, Finish, LoadResult, MergeResult;
    TrapIsNoFault(i, c.regs, c.nextPc);
    SameResidencySelf(vm);
    match EffectOf(i, c.regs, c.nextPc)
    case Trap(exc, bad) =>
    case Done(regs, pcAfter) =>
    case LoadFrom(addr, size) => ReadResidency(vm, addr, size);
    case StoreTo(addr, size, v) => WriteResidency(vm, addr, size, v);
    case MergeAt(addr) =>
      ReadResidency(vm, addr, Four);
      if ReadMem(vm, addr, Four).PagedValue? {
        var vm' := ReadMem(vm, addr, Four).vm;
        WriteResidency(vm', addr, Four, MergeResult(i, c.regs, ReadMem(vm, addr, Four).word));
        ResidencyKept(vm, vm', addr / 128);
      }
  }

  lemma SameResidencySelf(vm: Vm)
    ensures SameResidency(vm, vm)
  {
  }

  lemma ResidencyKept(vm: Vm, vm': Vm, v: int)
    requires SameResidency(vm, vm') && Shape(vm) && Shape(vm')
    ensures Resident(vm, v) ==> Resident(vm', v)
    ensures Newest(vm, v) ==> Newest(vm', v)
  {
  }

  lemma AttemptFault(c: CpuState, vm: Vm)
    requires Inv(vm) && Shape(vm) && IsFault(PagedStep(c, vm))
    ensures var out := PagedStep(c, vm);
            && SameResidency(vm, out.mem) && !Resident(vm, out.cpu.badVAddr / 128)
            && (out.cpu.badVAddr == c.pc || out.cpu.badVAddr == DataAddr(c, Flat(vm, vm.cur)))
            && (out.cpu.badVAddr == c.pc || Resident(vm, c.pc / 128))
  {
    hide EffectOf, ReadMem, PagedExecute, Resident, SameResidency, Shape, Inv, Flat, FlatRead, Decode;
    SameResidencySelf(vm);
    ReadView(vm, c.pc, Four);
    ReadResidency(vm, c.pc, Four);
    if ReadMem(vm, c.pc, Four).PagedValue? {
      var i, vm' := Decode(ReadMem(vm, c.pc, Four).word), ReadMem(vm, c.pc, Four).vm;
      ExecuteFault(i, c, vm');
      ResidencyTrans(vm, vm', PagedExecute(i, c, vm').mem, PagedExecute(i, c, vm').cpu.badVAddr / 128);
    }
  }

  lemma ResidencyTrans(vm0: Vm, vm1: Vm, vm2: Vm, v: int)
    requires SameResidency(vm0, vm1) && SameResidency(vm1, vm2) && Shape(vm0) && Shape(vm1)
    ensures SameResidency(vm0, vm2)
    ensures !Resident(vm1, v) ==> !Resident(vm0, v)
  {
  }

  // An attempt moves nothing.
  lemma ExecuteResidency(i: Instruction, c: CpuState, vm: Vm)
    requires Shape(vm) && Handled(i.op) && i.rs < 32 && i.rt < 32 && i.rd < 32
    ensures SameResidency(vm, PagedExecute(i, c, vm).mem)
  {
    hide EffectOf, ReadMem, WriteMem, Resident, SameResidency, Shape, Finish, LoadResult, MergeResult;
    SameResidencySelf(vm);
    match EffectOf(i, c.regs, c.nextPc)
    case Trap(exc, bad) =>
    case Done(regs, pcAfter) =>
    case LoadFrom(addr, size) => ReadResidency(vm, addr, size);
    case StoreTo(addr, size, v) => WriteResidency(vm, addr, size, v);
    case MergeAt(addr) =>
      ReadResidency(vm, addr, Four);
      match ReadMem(vm, addr, Four)
      case PagedReadFails(exc) =>
      case PagedValue(w, vm') => {
        var v := MergeResult(i, c.regs, w);
        WriteResidency(vm', addr, Four, v);
        if WriteMem(vm', addr, Four, v).PagedWritten? {
          ResidencyTrans(vm, vm', WriteMem(vm', addr, Four, v).vm, 0);
        } else {
          ResidencyTrans(vm, vm', vm', 0);
        }
      }
  }

  lemma AttemptResidency(c: CpuState, vm: Vm)
    requires Inv(vm) && Shape(vm)
    ensures SameResidency(vm, PagedStep(c, vm).mem)
  {
    hide ReadMem, PagedExecute, Resident, SameResidency, Shape, Inv, Decode;
    SameResidencySelf(vm);
    ReadResidency(vm, c.pc, Four);
    if ReadMem(vm, c.pc, Four).PagedValue? {
      var i, vm' := Decode(ReadMem(vm, c.pc, Four).word), ReadMem(vm, c.pc, Four).vm;
      ExecuteResidency(i, c, vm');
      ResidencyTrans(vm, vm', PagedExecute(i, c, vm').mem, 0);
    }
  }

  // ----------------------------------------------- allocation and residency

  // Servicing a fault loads no other page.
  lemma AllocateLoadsOnly(vm: Vm, v: nat, w: int)
    requires Faults(vm, v)
    ensures Resident(AllocatePage(vm, v), w) ==> Resident(vm, w) || w == v
  {
    hide OrdersDistinct, CleanMatchesSwap, FrameFor;
    AllocateTables(vm, v);
    if InTable(vm, vm.cur, w) {
      var p := FrameFor(vm);
      FreeKeepsInv(vm);
      if vm.bits[p] {
        EvictEntry(vm, p, vm.cur, w);
      }
      InstallEntry(FreeFrame(vm), p, v, vm.cur, w);
    }
  }

  lemma AllocateTables(vm: Vm, v: nat)
    requires Faults(vm, v)
    ensures Shape(vm) && Shape(AllocatePage(vm, v)) && AllocatePage(vm, v).cur == vm.cur
    ensures forall w :: InTable(AllocatePage(vm, v), vm.cur, w) <==> InTable(vm, vm.cur, w)
  {
    hide EntriesOwnFrames, FramesHaveEntries, OrdersDistinct, CleanMatchesSwap, AllocatePage, Content;
    AllocateCorrect(vm, v);
  }

  lemma AllocateIsNewest(vm: Vm, v: nat)
    requires Faults(vm, v)
    ensures Newest(AllocatePage(vm, v), v)
    ensures |AllocatePage(vm, v).frames| == |vm.frames|
  {
    hide OrdersDistinct, CleanMatchesSwap, FramesHaveEntries;
    AllocateCorrect(vm, v);
    AllocateFrame(vm, v);
  }

  // With two frames or more the page that was loaded last is never the victim.
  lemma NewestIsNoVictim(vm: Vm, w: int)
    requires Inv(vm) && Newest(vm, w) && |vm.frames| >= 2
    ensures FrameFor(vm) != Entry(vm, vm.cur, w).physicalPage
  {
  }

  lemma AllocateKeepsResident(vm: Vm, v: nat, w: int)
    requires Faults(vm, v) && Resident(vm, w) && FrameFor(vm) != Entry(vm, vm.cur, w).physicalPage
    ensures Resident(AllocatePage(vm, v), w)
  {
    hide OrdersDistinct, CleanMatchesSwap, FrameFor;
    var p := FrameFor(vm);
    FreeKeepsInv(vm);
    if vm.bits[p] {
      EvictEntry(vm, p, vm.cur, w);
    }
    InstallEntry(FreeFrame(vm), p, v, vm.cur, w);
  }

  // ------------------------------------------------------------- the bound

  // The state after the fault of an attempt has been serviced.
  lemma AfterFault(c: CpuState, vm: Vm)
    requires Inv(vm) && IsFault(PagedStep(c, vm))
    ensures Shape(vm)
    ensures var out := PagedStep(c, vm);
            && Faults(out.mem, out.cpu.badVAddr / 128)
            && var v, vm' := out.cpu.badVAddr / 128, AllocatePage(out.mem, out.cpu.badVAddr / 128);
            && Inv(vm') && Shape(vm') && |vm'.frames| == |vm.frames|
            && Newest(vm', v) && !Resident(vm, v)
            && (|vm.frames| >= 2 ==> forall w :: Newest(vm, w) ==> Resident(vm', w))
            && WellFormed(out.cpu) && out.cpu.loadReg == 0 && out.cpu.pc == c.pc && out.cpu.nextPc == c.nextPc
            && (c.loadReg == 0 ==> out.cpu.regs == c.regs)
            && vm'.cur == vm.cur && Flat(vm', vm.cur) == Flat(vm, vm.cur)
  {
    hide Flat, AllocatePage, PagedStep, InvBut, SameResidency, Newest, Resident;
    ServiceKeepsView(c, vm);
    var out := PagedStep(c, vm);
    var v := out.cpu.badVAddr / 128;
    SameViewFlat(vm, AllocatePage(out.mem, v));
    SameViewFlat(vm, out.mem);
    AttemptFault(c, vm);
    AllocateIsNewest(out.mem, v);
    ResidencyFrames(vm, out.mem);
    if |vm.frames| >= 2 {
      forall w | Newest(vm, w)
        ensures Resident(AllocatePage(out.mem, v), w)
      {
        ResidencyKept(vm, out.mem, w);
        NewestSurvives(out.mem, v, w);
      }
    }
  }

  lemma ResidencyFrames(vm: Vm, vm': Vm)
    requires SameResidency(vm, vm') && Shape(vm) && Shape(vm')
    ensures |vm'.frames| == |vm.frames|
  {
  }

  lemma NewestSurvives(vm: Vm, v: nat, w: int)
    requires Faults(vm, v) && Newest(vm, w) && |vm.frames| >= 2
    ensures Resident(AllocatePage(vm, v), w)
  {
    hide AllocatePage, FrameFor, InvBut;
    NewestIsNoVictim(vm, w);
    AllocateKeepsResident(vm, v, w);
  }

  lemma SameDataAddr(c: CpuState, d: CpuState, mem: seq<Byte>)
    requires c.pc == d.pc && c.nextPc == d.nextPc && c.regs == d.regs
    ensures DataAddr(c, mem) == DataAddr(d, mem)
  {
  }

  // An instruction with no load pending completes, or raises an exception
  // other than a page fault, after at most two page faults.
  lemma TwoFaultsSuffice(c: CpuState, vm: Vm)
    requires Inv(vm) && |vm.frames| >= 2 && c.loadReg == 0
    ensures !IsFault(Retry(c, vm, 2))
  {
    hide Flat, AllocatePage, PagedStep, Inv, Newest, Resident, SameResidency, DataAddr;
    var out0 := PagedStep(c, vm);
    if IsFault(out0) {
      AfterFault(c, vm);
      AttemptFault(c, vm);
      var x := out0.cpu.badVAddr / 128;
      var c1, vm1 := out0.cpu, AllocatePage(out0.mem, x);
      SameDataAddr(c, c1, Flat(vm, vm.cur));
      NewestResident(vm1, x);
      var out1 := PagedStep(c1, vm1);
      if IsFault(out1) {
        AfterFault(c1, vm1);
        AttemptFault(c1, vm1);
        var y := out1.cpu.badVAddr / 128;
        var c2, vm2 := out1.cpu, AllocatePage(out1.mem, y);
        NewestResident(vm2, y);
        SameDataAddr(c, c2, Flat(vm, vm.cur));
        if IsFault(PagedStep(c2, vm2)) {
          AttemptFault(c2, vm2);
          assert false;
        }
        assert Retry(c1, vm1, 1) == Retry(c2, vm2, 0);
      }
      assert Retry(c, vm, 2) == Retry(c1, vm1, 1);
    }
  }

  lemma NewestResident(vm: Vm, v: int)
    requires Newest(vm, v)
    ensures Resident(vm, v)
  {
  }

  // A pending load can change the data address at the first fault, which
  // costs at most one fault more.
  lemma ThreeFaultsSuffice(c: CpuState, vm: Vm)
    requires Inv(vm) && |vm.frames| >= 2
    ensures !IsFault(Retry(c, vm, 3))
  {
    hide Flat, AllocatePage, PagedStep, Inv, Newest, Resident;
    var out := PagedStep(c, vm);
    if IsFault(out) {
      AfterFault(c, vm);
      TwoFaultsSuffice(out.cpu, AllocatePage(out.mem, out.cpu.badVAddr / 128));
    }
  }

  // Demand paging: the only pages an instruction can bring in are its own and
  // that of its data.
  lemma {:induction false} LoadsOnlyNeeded(c: CpuState, vm: Vm, n: nat, w: int)
    requires Inv(vm) && Shape(vm) && c.loadReg == 0
    requires w != c.pc / 128 && w != DataAddr(c, Flat(vm, vm.cur)) / 128
    ensures Resident(Retry(c, vm, n).mem, w) ==> Resident(vm, w)
    decreases n
  {
    hide Flat, AllocatePage, PagedStep, Inv, Newest, Resident, SameResidency, DataAddr;
    AttemptResidency(c, vm);
    AttemptRefines(c, vm);
    var out := PagedStep(c, vm);
    var mem := out.mem;
    AttemptShape(c, vm);
    ResidencyBack(vm, mem, w);
    if IsFault(out) && n > 0 {
      AfterFault(c, vm);
      AttemptFault(c, vm);
      var v := out.cpu.badVAddr / 128;
      AllocateLoadsOnly(mem, v, w);
      SameDataAddr(c, out.cpu, Flat(vm, vm.cur));
      LoadsOnlyNeeded(out.cpu, AllocatePage(mem, v), n - 1, w);
    }
  }

  lemma {:induction false} RetryFrames(c: CpuState, vm: Vm, n: nat)
    requires Inv(vm) && Shape(vm)
    ensures Shape(Retry(c, vm, n).mem) && |Retry(c, vm, n).mem.frames| == |vm.frames|
    decreases n
  {
    hide Flat, AllocatePage, PagedStep, Inv, Newest, Resident, SameResidency;
    var out := PagedStep(c, vm);
    AttemptShape(c, vm);
    AttemptResidency(c, vm);
    ResidencyFrames(vm, out.mem);
    if IsFault(out) && n > 0 {
      AfterFault(c, vm);
      RetryFrames(out.cpu, AllocatePage(out.mem, out.cpu.badVAddr / 128), n - 1);
    }
  }

  lemma AttemptShape(c: CpuState, vm: Vm)
    requires Inv(vm)
    ensures Shape(vm) && Shape(PagedStep(c, vm).mem)
  {
    hide InvBut, PagedStep, FlatStep, Flat;
    AttemptRefines(c, vm);
    InvShape(PagedStep(c, vm).mem);
  }

  lemma ResidencyBack(vm: Vm, vm': Vm, w: int)
    requires SameResidency(vm, vm') && Shape(vm) && Shape(vm')
    ensures Resident(vm', w) ==> Resident(vm, w)
  {
  }

  // ------------------------------------------------------- a single frame

  // The instruction and its data are on two pages that both exist.
  ghost predicate NeedsTwoPages(c: CpuState, mem: seq<Byte>) {
    && FlatStep(c, mem).Completed?
    && DataAddr(c, mem) >= 0
    && DataAddr(c, mem) / 128 != c.pc / 128
  }

  lemma ReadFaults(vm: Vm, addr: Word, size: Size)
    requires Inv(vm) && !Resident(vm, addr / 128) && FlatRead(Flat(vm, vm.cur), addr, size).Value?
    ensures ReadMem(vm, addr, size) == PagedReadFails(PageFaultException)
  {
  }

  lemma WriteFaults(vm: Vm, addr: Word, size: Size, v: Word)
    requires Inv(vm) && !Resident(vm, addr / 128) && FlatWrite(Flat(vm, vm.cur), addr, size, v).Written?
    ensures WriteMem(vm, addr, size, v) == PagedWriteFails(PageFaultException)
  {
  }

  lemma ExecuteMustFault(i: Instruction, c: CpuState, vm: Vm)
    requires Inv(vm) && Shape(vm) && Handled(i.op) && i.rs < 32 && i.rt < 32 && i.rd < 32
    requires FlatExecute(i, c, Flat(vm, vm.cur)).Completed?
    requires match EffectOf(i, c.regs, c.nextPc)
             case LoadFrom(addr, _) => !Resident(vm, addr / 128)
             case StoreTo(addr, _, _) => !Resident(vm, addr / 128)
             case MergeAt(addr) => !Resident(vm, addr / 128)
             case _ => false
    ensures IsFault(PagedExecute(i, c, vm))
  {
    hide EffectOf, ReadMem, WriteMem, Resident, Shape, InvBut, Flat, FlatRead, FlatWrite, Finish, LoadResult,
      MergeResult;
    match EffectOf(i, c.regs, c.nextPc)
    case Trap(exc, bad) =>
    case Done(regs, pcAfter) =>
    case LoadFrom(addr, size) => ReadFaults(vm, addr, size);
    case StoreTo(addr, size, v) => WriteFaults(vm, addr, size, v);
    case MergeAt(addr) => ReadFaults(vm, addr, Four);
  }

  lemma OneFrameAttempt(c: CpuState, vm: Vm)
    requires Inv(vm) && Shape(vm) && |vm.frames| == 1 && NeedsTwoPages(c, Flat(vm, vm.cur))
    ensures IsFault(PagedStep(c, vm))
  {
    hide EffectOf, ReadMem, PagedExecute, FlatExecute, Resident, Shape, Inv, Flat, FlatRead, Decode, SameResidency;
    ReadView(vm, c.pc, Four);
    ReadResidency(vm, c.pc, Four);
    match ReadMem(vm, c.pc, Four)
    case PagedReadFails(exc) => FetchSucceeds(c, vm);
    case PagedValue(raw, vm') =>
      var i := Decode(raw);
      NotBoth(vm, vm', c.pc / 128, DataAddr(c, Flat(vm, vm.cur)) / 128);
      SameViewFlat(vm, vm');
      ExecuteMustFault(i, c, vm');
  }

  lemma FetchSucceeds(c: CpuState, vm: Vm)
    requires Inv(vm) && Shape(vm) && NeedsTwoPages(c, Flat(vm, vm.cur))
    ensures FlatRead(Flat(vm, vm.cur), c.pc, Four).Value?
  {
    hide FlatRead, FlatExecute, Flat;
  }

  lemma NotBoth(vm: Vm, vm': Vm, v: int, w: int)
    requires Inv(vm) && Inv(vm') && |vm.frames| == 1 && SameResidency(vm, vm') && Resident(vm, v) && v != w
    ensures !Resident(vm', w)
  {
  }

  // The bound needs its second frame: with a single frame, an instruction
  // whose data is on another page than itself faults for ever.
  lemma {:induction false} OneFrameNeverCompletes(c: CpuState, vm: Vm, n: nat)
    requires Inv(vm) && Shape(vm) && |vm.frames| == 1 && c.loadReg == 0 && NeedsTwoPages(c, Flat(vm, vm.cur))
    ensures IsFault(Retry(c, vm, n))
    decreases n
  {
    hide Flat, AllocatePage, PagedStep, Inv, Newest, Resident, DataAddr, FlatStep;
    OneFrameAttempt(c, vm);
    if n > 0 {
      AfterFault(c, vm);
      AttemptRefines(c, vm);
      var out := PagedStep(c, vm);
      var mem := Flat(vm, vm.cur);
      SameDataAddr(c, out.cpu, mem);
      CommitSame(c, out.cpu.badVAddr);
      TrappedKeepsPrev(c, out.cpu.badVAddr);
      FlatStepSame(c, out.cpu, mem);
      OneFrameNeverCompletes(out.cpu, AllocatePage(out.mem, out.cpu.badVAddr / 128), n - 1);
    }
  }

  lemma WriteFaultFits(vm: Vm, addr: Word, size: Size, v: Word)
    requires Inv(vm) && Shape(vm) && WriteMem(vm, addr, size, v) == PagedWriteFails(PageFaultException)
    ensures !FlatFails(Flat(vm, vm.cur), addr, size)
  {
    TranslateCases(vm, addr, size, true);
  }

  // An instruction that faults on its data would complete on the flat memory.
  lemma DataFaultCompletes(i: Instruction, c: CpuState, vm: Vm)
    requires Inv(vm) && Shape(vm) && Handled(i.op) && i.rs < 32 && i.rt < 32 && i.rd < 32
    requires IsFault(PagedExecute(i, c, vm))
    ensures FlatExecute(i, c, Flat(vm, vm.cur)).Completed?
  {
    hide EffectOf, Flat, ReadMem, WriteMem, InvBut, Shape, Finish, LoadResult, MergeResult, LoadedValue, FlatFails;
    TrapIsNoFault(i, c.regs, c.nextPc);
    match EffectOf(i, c.regs, c.nextPc)
    case Trap(exc, bad) =>
    case Done(regs, pcAfter) =>
    case LoadFrom(addr, size) => ReadMemRefines(vm, addr, size);
    case StoreTo(addr, size, v) => WriteFaultFits(vm, addr, size, v);
    case MergeAt(addr) => ReadMemRefines(vm, addr, Four);
  }

  // An attempt that faults with its own page loaded faults on its data, and
  // would complete on the flat memory.
  lemma FaultOnData(c: CpuState, vm: Vm)
    requires Inv(vm) && Shape(vm) && IsFault(PagedStep(c, vm)) && Resident(vm, c.pc / 128)
    ensures NeedsTwoPages(c, Flat(vm, vm.cur))
  {
    hide EffectOf, ReadMem, PagedExecute, FlatExecute, Resident, SameResidency, Shape, Inv, Flat, FlatRead, Decode;
    ReadView(vm, c.pc, Four);
    ReadResidency(vm, c.pc, Four);
    AttemptFault(c, vm);
    match ReadMem(vm, c.pc, Four)
    case PagedReadFails(exc) =>
    case PagedValue(raw, vm') =>
      SameViewFlat(vm, vm');
      DataFaultCompletes(Decode(raw), c, vm');
  }

  // After one fault an instruction that does not need two pages does not fault.
  lemma OnePageSuffices(c: CpuState, vm: Vm, n: nat)
    requires Inv(vm) && Shape(vm) && c.loadReg == 0 && n >= 1 && IsFault(Retry(c, vm, n))
    ensures NeedsTwoPages(c, Flat(vm, vm.cur))
  {
    hide Flat, AllocatePage, PagedStep, Inv, Newest, Resident, DataAddr, FlatStep;
    if Resident(vm, c.pc / 128) {
      FaultOnData(c, vm);
    } else {
      AfterFault(c, vm);
      AttemptRefines(c, vm);
      var out := PagedStep(c, vm);
      var mem := Flat(vm, vm.cur);
      AttemptFault(c, vm);
      NewestResident(AllocatePage(out.mem, out.cpu.badVAddr / 128), c.pc / 128);
      SameDataAddr(c, out.cpu, mem);
      TrappedKeepsPrev(c, out.cpu.badVAddr);
      FlatStepSame(c, out.cpu, mem);
      FaultOnData(out.cpu, AllocatePage(out.mem, out.cpu.badVAddr / 128));
    }
  }

  // With a single frame, an instruction with no load pending gets past its
  // page faults if and only if it does not need two pages.
  lemma OneFrameIff(c: CpuState, vm: Vm, n: nat)
    requires Inv(vm) && Shape(vm) && |vm.frames| == 1 && c.loadReg == 0 && n >= 1
    ensures IsFault(Retry(c, vm, n)) <==> NeedsTwoPages(c, Flat(vm, vm.cur))
  {
    hide Flat, Inv, Retry, NeedsTwoPages;
    if NeedsTwoPages(c, Flat(vm, vm.cur)) {
      OneFrameNeverCompletes(c, vm, n);
    } else if IsFault(Retry(c, vm, n)) {
      OnePageSuffices(c, vm, n);
    }
  }

  // With a load pending it is what the instruction needs once the load has
  // landed, if its first attempt faults, that decides.
  lemma OneFramePendingIff(c: CpuState, vm: Vm, n: nat)
    requires Inv(vm) && Shape(vm) && |vm.frames| == 1 && n >= 2
    ensures IsFault(Retry(c, vm, n)) <==> IsFault(PagedStep(c, vm)) && NeedsTwoPages(Commit(c), Flat(vm, vm.cur))
  {
    hide Flat, AllocatePage, PagedStep, Inv, Newest, Resident, NeedsTwoPages, Commit;
    var out := PagedStep(c, vm);
    if IsFault(out) {
      AfterFault(c, vm);
      AttemptRefines(c, vm);
      var mem := Flat(vm, vm.cur);
      CommitSame(c, out.cpu.badVAddr);
      NeedsSame(out.cpu, Commit(c), mem);
      OneFrameIff(out.cpu, AllocatePage(out.mem, out.cpu.badVAddr / 128), n - 1);
    }
  }

  lemma NeedsSame(c: CpuState, d: CpuState, mem: seq<Byte>)
    requires Same(c, d)
    ensures NeedsTwoPages(c, mem) <==> NeedsTwoPages(d, mem)
  {
    hide FlatStep, DataAddr;
    FlatStepSame(c, d, mem);
    SameDataAddr(c, d, mem);
  }

  lemma TrappedKeepsPrev(c: CpuState, bad: Word)
    requires c.loadReg == 0
    ensures Same(c, Trapped(c, bad))
  {
  }
}
