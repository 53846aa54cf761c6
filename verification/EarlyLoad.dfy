// Why the flat run starts with the pending load completed after a fault: a
// page fault makes a delayed load visible one instruction early.  A program
// that the machine can start, on which demand paging shows.
module EarlyLoad {
  import opened Words
  import opened Paging
  import opened Memory
  import opened Mips
  import opened Steps
  import opened Refinement
  import opened FaultBound
  import opened PagingRuns

  // The first page: BEQ r0, r0 to address 128, in its delay slot LW r2, 8(r0),
  // and the data word 7.  At address 128: ADDU r1, r2, r0.
  function First(): Page { [0x1f, 0x00, 0x00, 0x10, 0x08, 0x00, 0x02, 0x8c, 7, 0, 0, 0] + seq(116, i => 0) }

  function Second(): Page { [0x21, 0x08, 0x40, 0x00] + seq(124, i => 0) }

  // Two pages of code and data and the eight pages of the stack.
  function Swap(): seq<Page> { [First(), Second()] + seq(8, i => seq(128, j => 0)) }

  // The machine with two frames after boot, switched to the new program.
  ghost function Start(): Vm { SwitchTo(LoadProgram(Initial(2), Swap()), 1) }

  // AddrSpace::InitRegisters: the stack pointer is r29.
  function Boot(): CpuState { Cpu(seq(34, i => if i == 29 then 10 * 128 - 16 else 0), 0, 4, 0, 0, 0, 0) }

  // ------------------------------------------------------ the instructions

  // The words of the program that are fetched or loaded.
  ghost predicate Holding(mem: seq<Byte>) {
    && FlatRead(mem, 0, Four) == Value(0x1000_001f)
    && FlatRead(mem, 4, Four) == Value(0x8c02_0008)
    && FlatRead(mem, 8, Four) == Value(7)
    && FlatRead(mem, 128, Four) == Value(0x0040_0821)
  }

  lemma DecodeBranch()
    ensures Decode(0x1000_001f) == Instruction(BEQ, 0, 0, 0, 31)
  {
    hide OpTable, SpecialTable;
    assert OpTable(4) == BEQ by { Codes(); }
  }

  lemma DecodeLoad()
    ensures Decode(0x8c02_0008) == Instruction(LW, 0, 2, 0, 8)
  {
    hide OpTable, SpecialTable;
    assert OpTable(35) == LW by { Codes(); }
  }

  lemma DecodeAdd()
    ensures Decode(0x0040_0821) == Instruction(ADDU, 2, 0, 1, 0)
  {
    hide OpTable, SpecialTable;
    assert OpTable(0) == SPECIAL && SpecialTable(33) == ADDU by { Codes(); }
  }

  lemma Codes()
    ensures OpTable(4) == BEQ && OpTable(35) == LW && OpTable(0) == SPECIAL && SpecialTable(33) == ADDU
  {
  }

  lemma BranchTaken()
    ensures Taken(BEQ, 0, 0)
  {
  }

  lemma BranchGoes()
    ensures BranchTarget(BEQ, 0, 0, 31, 4) == 128
  {
    hide And, Or, Taken;
    assert Taken(BEQ, 0, 0) by { BranchTaken(); }
    assert Pow2(2) == 4;
  }

  lemma BranchDone(r: Regs)
    requires r[0] == 0
    ensures EffectOf(Instruction(BEQ, 0, 0, 0, 31), r, 4) == Done(r, 128)
  {
    hide BranchTarget, MemoryEffect, HiLoRegs, AluValue, Overflows, Wrap;
    BranchGoes();
  }

  lemma LoadFromThere(r: Regs, nextPc: Word)
    requires r[0] == 0
    ensures EffectOf(Instruction(LW, 0, 2, 0, 8), r, nextPc) == LoadFrom(8, Four)
  {
    hide BranchEffect, HiLoRegs, AluValue, Overflows;
  }

  lemma AddDone(r: Regs, nextPc: Word)
    requires r[0] == 0
    ensures EffectOf(Instruction(ADDU, 2, 0, 1, 0), r, nextPc) == Done(r[1 := r[2]], Wrap(nextPc + 4))
  {
    hide BranchEffect, HiLoRegs, MemoryEffect, AluValue, Wrap;
    AddZero(r[2]);
  }

  lemma AddZero(s: Word)
    ensures AluValue(ADDU, s, 0, 0) == s
  {
  }

  lemma BranchStep(c: CpuState, mem: seq<Byte>)
    requires Holding(mem) && c.pc == 0 && c.nextPc == 4 && c.loadReg == 0
    ensures FlatStep(c, mem) == Completed(c.(pc := 4, nextPc := 128, prevPc := 0, loadValue := 0), mem)
    ensures DataAddr(c, mem) < 0
  {
    hide Decode, FlatRead, EffectOf;
    DecodeBranch();
    BranchDone(c.regs);
  }

  lemma LoadStep(c: CpuState, mem: seq<Byte>)
    requires Holding(mem) && c.pc == 4 && c.nextPc == 128 && c.loadReg == 0
    ensures FlatStep(c, mem) == Completed(c.(pc := 128, nextPc := 132, prevPc := 4, loadReg := 2, loadValue := 7), mem)
    ensures DataAddr(c, mem) == 8
  {
    hide Decode, FlatRead, EffectOf, LoadResult;
    DecodeLoad();
    LoadFromThere(c.regs, 128);
    LoadGives(c);
  }

  lemma LoadGives(c: CpuState)
    ensures LoadResult(Instruction(LW, 0, 2, 0, 8), c, 7) == 7
  {
    hide LoadLeft, LoadRight, AddressOf;
  }

  lemma AddStep(c: CpuState, mem: seq<Byte>)
    requires Holding(mem) && c.pc == 128 && c.loadReg != 1
    ensures FlatStep(c, mem).Completed? && FlatStep(c, mem).cpu.regs[1] == c.regs[2] && FlatStep(c, mem).mem == mem
  {
    hide Decode, FlatRead, EffectOf;
    DecodeAdd();
    AddDone(c.regs, c.nextPc);
  }

  // -------------------------------------------------------- the first state

  lemma StartState()
    ensures Inv(Start()) && Shape(Start()) && |Start().frames| == 2
    ensures Start().spaces[Start().cur].swap == Swap() && |Start().spaces[Start().cur].table| == 10
    ensures !Resident(Start(), 1)
    ensures forall v :: 0 <= v < 10 ==>
              InTable(Start(), Start().cur, v) && Content(Start(), Start().cur, v) == Swap()[v]
  {
    hide Swap;
  }

  lemma StartHolds()
    ensures Shape(Start()) && Holding(Flat(Start(), Start().cur))
  {
    hide Start, Flat, Swap;
    StartState();
    forall a | 0 <= a < 12
      ensures Flat(Start(), Start().cur)[a] == First()[a]
    {
      FlatAt(Start(), Start().cur, a);
      assert Swap()[0] == First() by { SwapPages(); }
    }
    forall a | 128 <= a < 132
      ensures Flat(Start(), Start().cur)[a] == Second()[a - 128]
    {
      FlatAt(Start(), Start().cur, a);
      assert Swap()[1] == Second() by { SwapPages(); }
    }
    HoldingFrom(Flat(Start(), Start().cur));
  }

  lemma SwapPages()
    ensures Swap()[0] == First() && Swap()[1] == Second()
  {
  }

  lemma HoldingFrom(mem: seq<Byte>)
    requires |mem| >= 132
    requires forall a :: 0 <= a < 12 ==> mem[a] == First()[a]
    requires forall a :: 128 <= a < 132 ==> mem[a] == Second()[a - 128]
    ensures Holding(mem)
  {
  }

  // ------------------------------------------------------------- the runs

  // With its faults serviced, an instruction with no load pending does on the
  // paged memory what it does on the flat one, and no other page comes in.
  lemma PagedAsFlat(c: CpuState, vm: Vm, d: CpuState, w: int)
    requires Inv(vm) && Shape(vm) && |vm.frames| >= 2 && c.loadReg == 0 && Same(d, c)
    requires w != c.pc / 128 && w != DataAddr(d, Flat(vm, vm.cur)) / 128 && !Resident(vm, w)
    ensures var out, flat := Retry(c, vm, 3), FlatStep(d, Flat(vm, vm.cur));
            && out.Completed? == flat.Completed? && Inv(out.mem) && Shape(out.mem) && out.mem.cur == vm.cur
            && Same(flat.cpu, out.cpu) && Flat(out.mem, vm.cur) == flat.mem
            && |out.mem.frames| >= 2 && !Resident(out.mem, w)
  {
    hide Flat, FlatStep, Retry, InvBut, Resident, DataAddr;
    ThreeFaultsSuffice(c, vm);
    PagingIsInvisible(c, vm, 3);
    FlatStepSame(d, c, Flat(vm, vm.cur));
    InvShape(Retry(c, vm, 3).mem);
    RetryFrames(c, vm, 3);
    SameDataAddr(d, c, Flat(vm, vm.cur));
    LoadsOnlyNeeded(c, vm, 3, w);
  }

  // Three instructions from boot: on the flat memory r1 gets the old value of
  // r2, the load being still pending; on the paged memory, with every fault
  // serviced, it gets the value loaded, because the third instruction is on a
  // page that was not there and the fault has completed the load.
  lemma DemandPagingShows()
    ensures Inv(Start()) && Shape(Start()) && Boot().loadReg == 0
    ensures var mem := Flat(Start(), Start().cur);
            var a := FlatStep(Boot(), mem);
            var b := FlatStep(a.cpu, a.mem);
            var c := FlatStep(b.cpu, b.mem);
            a.Completed? && b.Completed? && c.Completed? && c.cpu.regs[1] == 0
    ensures var a := Retry(Boot(), Start(), 3);
            Inv(a.mem) &&
            var b := Retry(a.cpu, a.mem, 3);
            Inv(b.mem) &&
            var c := Retry(b.cpu, b.mem, 3);
            a.Completed? && b.Completed? && c.Completed? && c.cpu.regs[1] == 7
  {
    hide InvBut, Start, Flat, FlatStep, Retry, Holding, Resident, DataAddr, Same;
    StartState();
    StartHolds();
    var vm, mem := Start(), Flat(Start(), Start().cur);
    BranchStep(Boot(), mem);
    var f1 := FlatStep(Boot(), mem).cpu;
    LoadStep(f1, mem);
    var f2 := FlatStep(f1, mem).cpu;
    AddStep(f2, mem);
    SameSelf(Boot());
    PagedAsFlat(Boot(), vm, Boot(), 1);
    var a := Retry(Boot(), vm, 3);
    SameParts(f1, a.cpu);
    PagedAsFlat(a.cpu, a.mem, f1, 1);
    var b := Retry(a.cpu, a.mem, 3);
    SameParts(f2, b.cpu);
    AddFaults(b.cpu, b.mem);
  }

  lemma SameSelf(c: CpuState)
    ensures Same(c, c)
  {
  }

  lemma SameParts(c: CpuState, d: CpuState)
    requires Same(c, d)
    ensures d.pc == c.pc && d.regs == c.regs && d.loadReg == c.loadReg
    ensures c.loadReg != 0 ==> d.loadValue == c.loadValue
  {
  }

  // The third instruction, with its page not loaded and the load pending.
  lemma AddFaults(c: CpuState, vm: Vm)
    requires Inv(vm) && Shape(vm) && |vm.frames| >= 2 && Holding(Flat(vm, vm.cur)) && !Resident(vm, 1)
    requires c.pc == 128 && c.loadReg == 2 && c.loadValue == 7
    ensures Retry(c, vm, 3).Completed? && Retry(c, vm, 3).cpu.regs[1] == 7
  {
    hide Flat, InvBut, Retry, FlatRead, FlatStep, PagedStep;
    ReadFaults(vm, 128, Four);
    FetchFaults(c, vm);
    ThreeFaultsSuffice(c, vm);
    RetryRefines(c, vm, 3);
    AddStep(Commit(c), Flat(vm, vm.cur));
  }

  lemma FetchFaults(c: CpuState, vm: Vm)
    requires Inv(vm) && ReadMem(vm, c.pc, Four) == PagedReadFails(PageFaultException)
    ensures IsFault(PagedStep(c, vm))
  {
    hide ReadMem;
  }
}
