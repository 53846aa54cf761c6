// Running an instruction on the paged memory, with its page faults serviced
// by AllocatePage, is running it once on the flat memory.
module Refinement {
  import opened Words
  import opened Paging
  import opened PagingProofs
  import opened Memory
  import opened Mips
  import opened Steps

  // ------------------------------------------------------ a single attempt

  predicate IsFault<M>(out: Outcome<M>) {
    out.Raised? && out.exc == PageFaultException
  }

  // vm' comes from vm by work of the current space: the other spaces see
  // the memory they saw.
  ghost predicate Follows(vm: Vm, vm': Vm) {
    && Inv(vm) && Inv(vm')
    && vm'.cur == vm.cur && |vm'.spaces| == |vm.spaces|
    && forall s :: 0 <= s < |vm.spaces| && s != vm.cur ==> Flat(vm', s) == Flat(vm, s)
  }

  ghost predicate SameView(vm: Vm, vm': Vm) {
    Follows(vm, vm') && Flat(vm', vm.cur) == Flat(vm, vm.cur)
  }

  // The paged outcome is the flat one.
  ghost predicate Agrees(vm: Vm, out: Outcome<Vm>, flat: Outcome<seq<Byte>>) {
    && Follows(vm, out.mem)
    && out.cpu == flat.cpu
    && out.Completed? == flat.Completed?
    && (out.Raised? ==> out.exc == flat.exc)
    && flat.mem == Flat(out.mem, vm.cur)
  }

  // A page fault leaves the memory as it was and the CPU as RaiseException
  // does; the page named by the bad address is not loaded.
  ghost predicate FaultsCleanly(c: CpuState, vm: Vm, out: Outcome<Vm>) {
    && SameView(vm, out.mem)
    && out.cpu == Trapped(c, out.cpu.badVAddr)
    && Faults(out.mem, out.cpu.badVAddr / 128)
  }

  lemma SameContentsSameView(vm: Vm, vm': Vm)
    requires Inv(vm) && Inv(vm') && SameContents(vm, vm') && vm'.cur == vm.cur
    ensures SameView(vm, vm')
  {
  }

  lemma InvShape(vm: Vm)
    requires Inv(vm)
    ensures Shape(vm)
  {
  }

  // Reading keeps the whole view.
  lemma ReadView(vm: Vm, addr: Word, size: Size)
    requires Inv(vm)
    ensures Shape(vm)
    ensures match ReadMem(vm, addr, size)
            case PagedValue(w, vm') => FlatRead(Flat(vm, vm.cur), addr, size) == Value(w) && SameView(vm, vm')
            case PagedReadFails(exc) =>
              if exc == PageFaultException then Faults(vm, addr / 128)
              else FlatRead(Flat(vm, vm.cur), addr, size) == ReadFails(exc)
  {
    hide Flat, FlatRead, EntriesOwnFrames, FramesHaveEntries, OrdersDistinct, CleanMatchesSwap, SameContents, Faults,
      SameView;
    ReadMemRefines(vm, addr, size);
    match ReadMem(vm, addr, size)
    case PagedValue(w, vm') =>
      ReadCur(vm, addr, size);
      SameContentsSameView(vm, vm');
    case PagedReadFails(exc) =>
  }

  lemma ReadCur(vm: Vm, addr: Word, size: Size)
    requires Shape(vm)
    ensures ReadMem(vm, addr, size).PagedValue? ==> ReadMem(vm, addr, size).vm.cur == vm.cur
  {
  }

  lemma WriteView(vm: Vm, addr: Word, size: Size, v: Word)
    requires Inv(vm)
    ensures Shape(vm)
    ensures match WriteMem(vm, addr, size, v)
            case PagedWritten(vm') =>
              FlatWrite(Flat(vm, vm.cur), addr, size, v) == Written(Flat(vm', vm.cur)) && Follows(vm, vm')
            case PagedWriteFails(exc) =>
              if exc == PageFaultException then Faults(vm, addr / 128)
              else FlatWrite(Flat(vm, vm.cur), addr, size, v) == WriteFails(exc)
  {
    hide Flat, FlatWrite, EntriesOwnFrames, FramesHaveEntries, OrdersDistinct, CleanMatchesSwap, Faults;
    WriteMemRefines(vm, addr, size, v);
  }

  lemma TrapIsNoFault(i: Instruction, r: Regs, nextPc: Word)
    requires Handled(i.op) && i.rs < 32 && i.rt < 32 && i.rd < 32
    ensures EffectOf(i, r, nextPc).Trap? ==> EffectOf(i, r, nextPc).exc != PageFaultException
  {
  }

  // The memory part of an instruction agrees with the flat memory, or faults
  // cleanly.
  lemma ExecuteRefines(i: Instruction, c: CpuState, vm: Vm)
    requires Inv(vm) && Shape(vm) && Handled(i.op) && i.rs < 32 && i.rt < 32 && i.rd < 32
    ensures var out := PagedExecute(i, c, vm);
            if IsFault(out) then FaultsCleanly(c, vm, out)
            else Agrees(vm, out, FlatExecute(i, c, Flat(vm, vm.cur)))
  {
    hide EffectOf, Flat, FlatRead, FlatWrite, ReadMem, WriteMem, InvBut, Shape, Finish, LoadResult, MergeResult, Faults;
    TrapIsNoFault(i, c.regs, c.nextPc);
    match EffectOf(i, c.regs, c.nextPc)
    case Trap(exc, bad) =>
    case Done(regs, pcAfter) =>
    case LoadFrom(addr, size) => ReadView(vm, addr, size);
    case StoreTo(addr, size, v) => WriteView(vm, addr, size, v);
    case MergeAt(addr) =>
      ReadView(vm, addr, Four);
      match ReadMem(vm, addr, Four)
      case PagedReadFails(exc) =>
      case PagedValue(v, vm') => WriteView(vm', addr, Four, MergeResult(i, c.regs, v));
  }

  lemma AttemptRefines(c: CpuState, vm: Vm)
    requires Inv(vm)
    ensures Shape(vm)
    ensures var out := PagedStep(c, vm);
            if IsFault(out) then FaultsCleanly(c, vm, out)
            else Agrees(vm, out, FlatStep(c, Flat(vm, vm.cur)))
  {
    hide Flat, FlatRead, ReadMem, InvBut, Shape, PagedExecute, FlatExecute, Decode, Faults;
    ReadView(vm, c.pc, Four);
    match ReadMem(vm, c.pc, Four)
    case PagedReadFails(exc) =>
    case PagedValue(raw, vm') =>
      InvShape(vm');
      ExecuteRefines(Decode(raw), c, vm');
      var out := PagedExecute(Decode(raw), c, vm');
      if IsFault(out) {
        FollowsTrans(vm, vm', out.mem);
      } else {
        FollowsTrans(vm, vm', out.mem);
      }
  }

  lemma FollowsTrans(vm0: Vm, vm1: Vm, vm2: Vm)
    requires Follows(vm0, vm1) && Follows(vm1, vm2)
    ensures Follows(vm0, vm2)
  {
  }

  // ----------------------------------------------- what an attempt touches

  // Only frame contents and the page table of the current space change.
  ghost predicate LocalChange(vm: Vm, vm': Vm) {
    && vm.cur < |vm.spaces| && vm'.cur < |vm'.spaces|
    && vm' == vm.(frames := vm'.frames,
                  spaces := vm.spaces[vm.cur := vm.spaces[vm.cur].(table := vm'.spaces[vm'.cur].table)])
  }

  lemma AccessIsLocal(vm: Vm, addr: Word, size: Size, v: Word)
    requires Shape(vm)
    ensures ReadMem(vm, addr, size).PagedValue? ==>
              Shape(ReadMem(vm, addr, size).vm) && LocalChange(vm, ReadMem(vm, addr, size).vm)
    ensures WriteMem(vm, addr, size, v).PagedWritten? ==>
              Shape(WriteMem(vm, addr, size, v).vm) && LocalChange(vm, WriteMem(vm, addr, size, v).vm)
  {
  }

  lemma LocalTrans(vm0: Vm, vm1: Vm, vm2: Vm)
    requires LocalChange(vm0, vm1) && LocalChange(vm1, vm2)
    ensures LocalChange(vm0, vm2)
  {
  }

  lemma LocalSelf(vm: Vm)
    requires Shape(vm)
    ensures LocalChange(vm, vm)
  {
  }

  lemma ExecuteIsLocal(i: Instruction, c: CpuState, vm: Vm)
    requires Shape(vm) && Handled(i.op) && i.rs < 32 && i.rt < 32 && i.rd < 32
    ensures Shape(PagedExecute(i, c, vm).mem) && LocalChange(vm, PagedExecute(i, c, vm).mem)
  {
    hide EffectOf, ReadMem, WriteMem, Shape, Finish, LoadResult, MergeResult, LocalChange;
    LocalSelf(vm);
    match EffectOf(i, c.regs, c.nextPc)
    case Trap(exc, bad) =>
    case Done(regs, pcAfter) =>
    case LoadFrom(addr, size) => AccessIsLocal(vm, addr, size, 0);
    case StoreTo(addr, size, v) => AccessIsLocal(vm, addr, size, v);
    case MergeAt(addr) =>
      AccessIsLocal(vm, addr, Four, 0);
      if ReadMem(vm, addr, Four).PagedValue? {
        var vm', v := ReadMem(vm, addr, Four).vm, MergeResult(i, c.regs, ReadMem(vm, addr, Four).word);
        AccessIsLocal(vm', addr, Four, v);
        if WriteMem(vm', addr, Four, v).PagedWritten? {
          LocalTrans(vm, vm', WriteMem(vm', addr, Four, v).vm);
        }
      }
  }

  lemma StepIsLocal(c: CpuState, vm: Vm)
    requires Inv(vm) && Shape(vm)
    ensures Shape(PagedStep(c, vm).mem) && LocalChange(vm, PagedStep(c, vm).mem)
  {
    hide ReadMem, PagedExecute, Decode, InvBut, LocalChange, Shape;
    LocalSelf(vm);
    AccessIsLocal(vm, c.pc, Four, 0);
    if ReadMem(vm, c.pc, Four).PagedValue? {
      var i, vm' := Decode(ReadMem(vm, c.pc, Four).word), ReadMem(vm, c.pc, Four).vm;
      ExecuteIsLocal(i, c, vm');
      LocalTrans(vm, vm', PagedExecute(i, c, vm').mem);
    }
  }

  // --------------------------------------------- early delayed loads

  // The CPU with its pending load completed early, as a trap does it.
  function Commit(c: CpuState): CpuState { DelayedLoad(c, 0, 0) }

  // The same user-visible state.  The value of a load into r0 and the bad
  // address register are not visible.
  predicate Same(c: Cpu, d: Cpu) {
    && c.regs == d.regs && c.pc == d.pc && c.nextPc == d.nextPc && c.prevPc == d.prevPc
    && c.loadReg == d.loadReg && (c.loadReg != 0 ==> c.loadValue == d.loadValue)
  }

  // A handler finds the very same registers, the bad address among them.
  predicate SameOutcome<M(==)>(a: Outcome<M>, b: Outcome<M>) {
    && a.mem == b.mem && Same(a.cpu, b.cpu) && a.Completed? == b.Completed?
    && (a.Raised? ==> a.exc == b.exc && a.cpu == b.cpu)
  }

  lemma TrappedSame(c: CpuState, d: CpuState, bad: Word)
    requires Same(c, d)
    ensures Trapped(c, bad) == Trapped(d, bad)
  {
  }

  lemma FinishSame(c: CpuState, d: CpuState, regs: Regs, loadReg: nat, v: Word, w: Word, pcAfter: Word)
    requires Same(c, d) && loadReg < 32 && (loadReg != 0 ==> v == w)
    ensures Same(Finish(c, regs, loadReg, v, pcAfter), Finish(d, regs, loadReg, w, pcAfter))
  {
  }

  lemma LoadResultSame(i: Instruction, c: CpuState, d: CpuState, v: Word)
    requires Same(c, d) && i.rs < 32 && i.rt < 32
    ensures i.rt != 0 ==> LoadResult(i, c, v) == LoadResult(i, d, v)
  {
  }

  // The flat step does not look at what Same leaves out.
  lemma FlatStepSame(c: CpuState, d: CpuState, mem: seq<Byte>)
    requires Same(c, d)
    ensures SameOutcome(FlatStep(c, mem), FlatStep(d, mem))
  {
    hide FlatExecute, Decode;
    match FlatRead(mem, c.pc, Four)
    case ReadFails(exc) => TrappedSame(c, d, c.pc);
    case Value(raw) => FlatExecuteSame(Decode(raw), c, d, mem);
  }

  lemma FlatExecuteSame(i: Instruction, c: CpuState, d: CpuState, mem: seq<Byte>)
    requires Same(c, d) && Handled(i.op) && i.rs < 32 && i.rt < 32 && i.rd < 32
    ensures SameOutcome(FlatExecute(i, c, mem), FlatExecute(i, d, mem))
  {
    hide EffectOf, FlatRead, FlatWrite, Finish, Trapped, LoadResult, MergeResult;
    match EffectOf(i, c.regs, c.nextPc)
    case Trap(exc, bad) => TrappedSame(c, d, bad);
    case Done(regs, pcAfter) => FinishSame(c, d, regs, 0, 0, 0, pcAfter);
    case LoadFrom(addr, size) =>
      TrappedSame(c, d, addr);
      if FlatRead(mem, addr, size).Value? {
        var v := FlatRead(mem, addr, size).word;
        LoadResultSame(i, c, d, v);
        FinishSame(c, d, c.regs, i.rt, LoadResult(i, c, v), LoadResult(i, d, v), NextAfter(c));
      }
    case StoreTo(addr, size, v) =>
      TrappedSame(c, d, addr);
      FinishSame(c, d, c.regs, 0, 0, 0, NextAfter(c));
    case MergeAt(addr) =>
      TrappedSame(c, d, addr);
      FinishSame(c, d, c.regs, 0, 0, 0, NextAfter(c));
  }

  // ------------------------------------------------------------- retrying

  // The instruction is attempted; while it faults, at most n times, the page
  // is brought in and the instruction is attempted again.
  ghost function Retry(c: CpuState, vm: Vm, n: nat): Outcome<Vm>
    requires Inv(vm)
    decreases n
  {
    var out := PagedStep(c, vm);
    if IsFault(out) && n > 0 then
      AttemptRefines(c, vm);
      AllocateCorrect(out.mem, out.cpu.badVAddr / 128);
      Retry(out.cpu, AllocatePage(out.mem, out.cpu.badVAddr / 128), n - 1)
    else out
  }

  // The memory after servicing the fault of an attempt.
  lemma ServiceKeepsView(c: CpuState, vm: Vm)
    requires Inv(vm) && IsFault(PagedStep(c, vm))
    ensures var out := PagedStep(c, vm);
            && FaultsCleanly(c, vm, out)
            && SameView(vm, AllocatePage(out.mem, out.cpu.badVAddr / 128))
  {
    hide Flat, Inv, AllocatePage, PagedStep, FlatStep, SameContents;
    AttemptRefines(c, vm);
    var out := PagedStep(c, vm);
    AllocateCorrect(out.mem, out.cpu.badVAddr / 128);
    SameContentsSameView(out.mem, AllocatePage(out.mem, out.cpu.badVAddr / 128));
  }

  // The flat CPU that the paged run corresponds to: a fault at the first
  // attempt completes the pending load early.
  ghost function StartOf(c: CpuState, vm: Vm): CpuState
    requires Inv(vm)
  {
    if IsFault(PagedStep(c, vm)) then Commit(c) else c
  }

  ghost predicate AgreesSame(vm: Vm, out: Outcome<Vm>, flat: Outcome<seq<Byte>>) {
    && Follows(vm, out.mem)
    && Same(out.cpu, flat.cpu)
    && out.Completed? == flat.Completed?
    && (out.Raised? ==> out.exc == flat.exc && out.cpu == flat.cpu)
    && flat.mem == Flat(out.mem, vm.cur)
  }

  lemma CommitSame(c: CpuState, bad: Word)
    ensures Same(Trapped(c, bad), Commit(c))
    ensures c.loadReg == 0 ==> Same(c, Commit(c))
    ensures Same(Commit(Trapped(c, bad)), Commit(c))
  {
  }

  // Agreement carries over to an earlier memory with the same view and to
  // a flat run from the same visible state.
  lemma AgreementCarries(vm: Vm, vm': Vm, out: Outcome<Vm>, a: Outcome<seq<Byte>>, b: Outcome<seq<Byte>>)
    requires SameView(vm, vm') && AgreesSame(vm', out, a) && SameOutcome(a, b)
    ensures AgreesSame(vm, out, b)
  {
  }

  lemma AgreesIsAgreesSame(vm: Vm, out: Outcome<Vm>, flat: Outcome<seq<Byte>>)
    requires Agrees(vm, out, flat)
    ensures AgreesSame(vm, out, flat)
  {
  }

  lemma StartIsCommitted(c: CpuState, bad: Word, vm': Vm)
    requires Inv(vm')
    ensures Same(StartOf(Trapped(c, bad), vm'), Commit(c))
  {
  }

  // Demand paging is invisible: whenever the instruction gets past its page
  // faults, its outcome, the registers and the memory of every space are
  // those of one step on the flat memory, with the pending load completed
  // first if there was a fault.
  lemma {:induction false} RetryRefines(c: CpuState, vm: Vm, n: nat)
    requires Inv(vm)
    ensures Shape(vm)
    ensures var out := Retry(c, vm, n);
            IsFault(out) || AgreesSame(vm, out, FlatStep(StartOf(c, vm), Flat(vm, vm.cur)))
    decreases n
  {
    hide Flat, Inv, AllocatePage, PagedStep, FlatStep, Commit, Same, Agrees, AgreesSame, SameView, SameOutcome, Trapped;
    AttemptRefines(c, vm);
    var out := PagedStep(c, vm);
    var mem := Flat(vm, vm.cur);
    if !IsFault(out) {
      AgreesIsAgreesSame(vm, out, FlatStep(c, mem));
    } else if n > 0 {
      ServiceKeepsView(c, vm);
      var bad := out.cpu.badVAddr;
      var vm' := AllocatePage(out.mem, bad / 128);
      SameViewFlat(vm, vm');
      RetryRefines(out.cpu, vm', n - 1);
      StartIsCommitted(c, bad, vm');
      FlatStepSame(StartOf(out.cpu, vm'), Commit(c), mem);
      var final := Retry(out.cpu, vm', n - 1);
      assert final == Retry(c, vm, n);
      if !IsFault(final) {
        AgreementCarries(vm, vm', final, FlatStep(StartOf(out.cpu, vm'), mem), FlatStep(Commit(c), mem));
      }
    }
  }

  lemma SameViewFlat(vm: Vm, vm': Vm)
    requires SameView(vm, vm')
    ensures Inv(vm') && Shape(vm) && Shape(vm') && vm'.cur == vm.cur && Flat(vm', vm'.cur) == Flat(vm, vm.cur)
  {
  }

  // With no load pending, demand paging agrees with the flat memory outright.
  lemma PagingIsInvisible(c: CpuState, vm: Vm, n: nat)
    requires Inv(vm) && c.loadReg == 0
    ensures Shape(vm)
    ensures var out := Retry(c, vm, n);
            IsFault(out) || AgreesSame(vm, out, FlatStep(c, Flat(vm, vm.cur)))
  {
    hide Flat, Inv, Retry, PagedStep, FlatStep, AgreesSame, Same, SameOutcome, Commit;
    RetryRefines(c, vm, n);
    CommitSame(c, 0);
    SameSymmetric(c, Commit(c));
    FlatStepSame(Commit(c), c, Flat(vm, vm.cur));
    var out := Retry(c, vm, n);
    if !IsFault(out) && StartOf(c, vm) != c {
      SameViewSelf(vm);
      AgreementCarries(vm, vm, out, FlatStep(Commit(c), Flat(vm, vm.cur)), FlatStep(c, Flat(vm, vm.cur)));
    }
  }

  lemma SameSymmetric(c: Cpu, d: Cpu)
    requires Same(c, d)
    ensures Same(d, c)
  {
  }

  lemma SameViewSelf(vm: Vm)
    requires Inv(vm)
    ensures SameView(vm, vm)
  {
  }
}
