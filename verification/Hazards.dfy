// When demand paging is invisible although a load is pending: a page fault
// completes the load early, and that matters only to an instruction that has
// to do with the register being loaded.
module Hazards {
  import opened Words
  import opened Paging
  import opened Memory
  import opened Mips
  import opened Steps
  import opened Refinement

  // ------------------------------------------------- the exact condition

  lemma AgreeingOutcomes(vm: Vm, out: Outcome<Vm>, a: Outcome<seq<Byte>>, b: Outcome<seq<Byte>>)
    requires AgreesSame(vm, out, a)
    ensures AgreesSame(vm, out, b) <==> SameOutcome(a, b)
  {
    hide Flat, Inv;
  }

  // An instruction that gets past its page faults agrees with the flat step
  // if and only if it did not fault, or the flat step does not depend on
  // whether the pending load has landed.
  lemma InvisibleIff(c: CpuState, vm: Vm, n: nat)
    requires Inv(vm) && !IsFault(Retry(c, vm, n))
    ensures Shape(vm)
    ensures AgreesSame(vm, Retry(c, vm, n), FlatStep(c, Flat(vm, vm.cur))) <==>
              || !IsFault(PagedStep(c, vm))
              || SameOutcome(FlatStep(c, Flat(vm, vm.cur)), FlatStep(Commit(c), Flat(vm, vm.cur)))
  {
    hide Flat, Inv, Retry, PagedStep, FlatStep, AgreesSame, SameOutcome, Commit;
    RetryRefines(c, vm, n);
    var out, mem := Retry(c, vm, n), Flat(vm, vm.cur);
    AgreeingOutcomes(vm, out, FlatStep(StartOf(c, vm), mem), FlatStep(c, mem));
    SameOutcomeSymmetric(FlatStep(c, mem), FlatStep(Commit(c), mem));
  }

  lemma SameOutcomeSymmetric(a: Outcome<seq<Byte>>, b: Outcome<seq<Byte>>)
    ensures SameOutcome(a, b) <==> SameOutcome(b, a)
  {
  }

  // ------------------------------------- a condition on the instruction

  predicate Links(op: Op) { op == JAL || op == BGEZAL || op == BLTZAL }

  // Register r is named by the instruction.
  predicate Names(i: Instruction, r: nat) {
    r == i.rs || r == i.rt || r == i.rd || (Links(i.op) && r == 31)
  }

  // The second instruction of a pair of LWR and LWL: it merges with the value
  // on its way as it would with the register.
  predicate Merges(i: Instruction, c: Cpu) {
    (i.op == LWL || i.op == LWR) && i.rt == c.loadReg && i.rs != c.loadReg
  }

  // The instruction has nothing to do with the register being loaded, or
  // merges with it.
  predicate NoHazard(i: Instruction, c: Cpu) { c.loadReg == 0 || !Names(i, c.loadReg) || Merges(i, c) }

  // What the effect of an instruction becomes when register r, which it does
  // not name, holds v.
  function WithRegister(e: Effect, r: nat, v: Word): Effect
    requires r < 34
  {
    if e.Done? then Done(e.regs[r := v], e.pcAfter) else e
  }

  lemma EffectUnnamed(i: Instruction, regs: Regs, nextPc: Word, r: nat, v: Word)
    requires Handled(i.op) && i.rs < 32 && i.rt < 32 && i.rd < 32 && 0 < r < 32 && !Names(i, r)
    ensures EffectOf(i, regs[r := v], nextPc) == WithRegister(EffectOf(i, regs, nextPc), r, v)
  {
    hide MemoryEffect, BranchEffect, HiLoRegs, AluValue, Overflows;
    if IsMemory(i.op) {
      MemoryUnnamed(i, regs, r, v);
    } else if IsBranch(i.op) {
      BranchUnnamed(i, regs, nextPc, r, v);
    } else if IsHiLo(i.op) {
      HiLoUnnamed(i, regs, r, v);
    } else {
      var target := if IsImmediate(i.op) then i.rt else i.rd;
      var x := AluValue(i.op, regs[i.rs], regs[i.rt], i.extra);
      assert regs[r := v][target := x] == regs[target := x][r := v];
    }
  }

  lemma MemoryUnnamed(i: Instruction, regs: Regs, r: nat, v: Word)
    requires IsMemory(i.op) && i.rs < 32 && i.rt < 32 && r < 32 && !Names(i, r)
    ensures MemoryEffect(i, regs[r := v]) == MemoryEffect(i, regs) && !MemoryEffect(i, regs).Done?
  {
    hide Wrap, AddressOf;
    RegsUnnamed(i, regs, r, v);
    AddressUnnamed(i, regs, r, v);
  }

  lemma RegsUnnamed(i: Instruction, regs: Regs, r: nat, v: Word)
    requires i.rs < 32 && i.rt < 32 && r < 32 && !Names(i, r)
    ensures regs[r := v][i.rs] == regs[i.rs] && regs[r := v][i.rt] == regs[i.rt]
  {
  }

  lemma AddressUnnamed(i: Instruction, regs: Regs, r: nat, v: Word)
    requires i.rs < 32 && r < 32 && r != i.rs
    ensures AddressOf(i, regs[r := v]) == AddressOf(i, regs)
  {
    hide Wrap;
  }

  lemma BranchUnnamed(i: Instruction, regs: Regs, nextPc: Word, r: nat, v: Word)
    requires IsBranch(i.op) && i.rs < 32 && i.rt < 32 && i.rd < 32 && r < 32 && !Names(i, r)
    ensures BranchEffect(i, regs[r := v], nextPc) == WithRegister(BranchEffect(i, regs, nextPc), r, v)
  {
    hide BranchTarget, Wrap;
    var after := Wrap(nextPc + 4);
    assert Linked(i, regs[r := v], after) == Linked(i, regs, after)[r := v];
  }

  lemma HiLoUnnamed(i: Instruction, regs: Regs, r: nat, v: Word)
    requires IsHiLo(i.op) && i.rs < 32 && i.rt < 32 && i.rd < 32 && r < 32 && !Names(i, r)
    ensures HiLoRegs(i, regs[r := v]) == HiLoRegs(i, regs)[r := v]
  {
    hide HiLoPair;
  }

  lemma CommitRegs(c: CpuState)
    requires c.loadReg != 0
    ensures Commit(c) == c.(regs := c.regs[c.loadReg := c.loadValue], loadReg := 0, loadValue := 0)
  {
  }

  // The early load lands in the same place.
  lemma FinishUnnamed(c: CpuState, regs: Regs, loadReg: nat, v: Word, w: Word, pcAfter: Word)
    requires c.loadReg != 0 && loadReg < 32 && (loadReg != 0 ==> v == w)
    ensures Same(Finish(c, regs, loadReg, v, pcAfter),
                 Finish(Commit(c), regs[c.loadReg := c.loadValue], loadReg, w, pcAfter))
  {
  }

  lemma TrapUnnamed(c: CpuState, bad: Word)
    ensures Trapped(c, bad) == Trapped(Commit(c), bad) && Same(Trapped(c, bad), Trapped(Commit(c), bad))
  {
  }

  lemma LoadUnnamed(i: Instruction, c: CpuState, v: Word)
    requires i.rs < 32 && i.rt < 32 && c.loadReg != 0 && !Names(i, c.loadReg)
    ensures i.rt != 0 ==> LoadResult(i, c, v) == LoadResult(i, Commit(c), v)
  {
    hide LoadLeft, LoadRight, Wrap, AddressOf, Commit;
    CommitRegs(c);
    RegsUnnamed(i, c.regs, c.loadReg, c.loadValue);
    AddressUnnamed(i, c.regs, c.loadReg, c.loadValue);
  }

  lemma MergeUnnamed(i: Instruction, c: CpuState, v: Word)
    requires i.rs < 32 && i.rt < 32 && c.loadReg != 0 && !Names(i, c.loadReg)
    ensures MergeResult(i, c.regs, v) == MergeResult(i, Commit(c).regs, v)
  {
    hide StoreLeft, StoreRight, Wrap, AddressOf, Commit;
    CommitRegs(c);
    RegsUnnamed(i, c.regs, c.loadReg, c.loadValue);
    AddressUnnamed(i, c.regs, c.loadReg, c.loadValue);
  }

  lemma MergesSame(i: Instruction, c: CpuState, mem: seq<Byte>)
    requires Handled(i.op) && i.rs < 32 && i.rt < 32 && i.rd < 32 && c.loadReg != 0 && Merges(i, c)
    ensures SameOutcome(FlatExecute(i, c, mem), FlatExecute(i, Commit(c), mem))
  {
    hide EffectOf, FlatRead, Finish, Trapped, LoadResult, Commit, Same, Merges, AddressOf, AlignedAddress;
    MergeAddress(i, c);
    MergeEffect(i, c.regs, c.nextPc);
    MergeEffect(i, Commit(c).regs, Commit(c).nextPc);
    CommitRegs(c);
    var addr := AlignedAddress(i, c.regs);
    TrapUnnamed(c, addr);
    if FlatRead(mem, addr, Four).Value? {
      var v := FlatRead(mem, addr, Four).word;
      MergeKept(i, c, v);
      FinishUnnamed(c, c.regs, i.rt, LoadResult(i, c, v), LoadResult(i, Commit(c), v), NextAfter(c));
    }
  }

  // The address of the word that LWL and LWR read.
  function AlignedAddress(i: Instruction, r: Regs): Word
    requires i.rs < 32
  {
    AddressOf(i, r) - AddressOf(i, r) % 4
  }

  lemma MergeEffect(i: Instruction, regs: Regs, nextPc: Word)
    requires (i.op == LWL || i.op == LWR) && i.rs < 32 && i.rt < 32 && i.rd < 32
    ensures EffectOf(i, regs, nextPc) == LoadFrom(AlignedAddress(i, regs), Four)
  {
    hide AddressOf;
  }

  lemma MergeAddress(i: Instruction, c: CpuState)
    requires i.rs < 32 && c.loadReg != 0 && Merges(i, c)
    ensures (i.op == LWL || i.op == LWR) && AlignedAddress(i, Commit(c).regs) == AlignedAddress(i, c.regs)
    ensures AddressOf(i, Commit(c).regs) == AddressOf(i, c.regs)
  {
    hide AddressOf, Commit;
    CommitRegs(c);
    AddressUnnamed(i, c.regs, c.loadReg, c.loadValue);
  }

  lemma MergeKept(i: Instruction, c: CpuState, v: Word)
    requires i.rs < 32 && i.rt < 32 && c.loadReg != 0 && Merges(i, c)
    ensures LoadResult(i, c, v) == LoadResult(i, Commit(c), v)
  {
    hide LoadLeft, LoadRight, AddressOf, Commit;
    CommitRegs(c);
    MergeAddress(i, c);
  }

  // An instruction that does not name the register being loaded, or merges
  // with it, does not see whether the load has landed.
  lemma UnnamedSame(i: Instruction, c: CpuState, mem: seq<Byte>)
    requires Handled(i.op) && i.rs < 32 && i.rt < 32 && i.rd < 32 && NoHazard(i, c)
    ensures SameOutcome(FlatExecute(i, c, mem), FlatExecute(i, Commit(c), mem))
  {
    hide EffectOf, FlatRead, FlatWrite, Finish, Trapped, LoadResult, MergeResult, Commit, Same, Names;
    if c.loadReg == 0 {
      CommitSame(c, 0);
      FlatExecuteSame(i, c, Commit(c), mem);
    } else if Merges(i, c) {
      MergesSame(i, c, mem);
    } else {
      CommitRegs(c);
      EffectUnnamed(i, c.regs, c.nextPc, c.loadReg, c.loadValue);
      match EffectOf(i, c.regs, c.nextPc)
      case Trap(exc, bad) => TrapUnnamed(c, bad);
      case Done(regs, pcAfter) => FinishUnnamed(c, regs, 0, 0, 0, pcAfter);
      case LoadFrom(addr, size) => LoadsSame(i, c, mem, addr, size);
      case StoreTo(addr, size, v) =>
        TrapUnnamed(c, addr);
        FinishUnnamed(c, c.regs, 0, 0, 0, NextAfter(c));
      case MergeAt(addr) =>
        TrapUnnamed(c, addr);
        FinishUnnamed(c, c.regs, 0, 0, 0, NextAfter(c));
        if FlatRead(mem, addr, Four).Value? {
          MergeUnnamed(i, c, FlatRead(mem, addr, Four).word);
        }
    }
  }

  lemma LoadsSame(i: Instruction, c: CpuState, mem: seq<Byte>, addr: Word, size: Size)
    requires Handled(i.op) && i.rs < 32 && i.rt < 32 && i.rd < 32 && c.loadReg != 0 && !Names(i, c.loadReg)
    requires EffectOf(i, c.regs, c.nextPc) == EffectOf(i, Commit(c).regs, Commit(c).nextPc) == LoadFrom(addr, size)
    ensures SameOutcome(FlatExecute(i, c, mem), FlatExecute(i, Commit(c), mem))
  {
    hide EffectOf, FlatRead, Finish, Trapped, LoadResult, Commit, Same, Names;
    TrapUnnamed(c, addr);
    CommitRegs(c);
    if FlatRead(mem, addr, size).Value? {
      var v := FlatRead(mem, addr, size).word;
      LoadUnnamed(i, c, v);
      FinishUnnamed(c, c.regs, i.rt, LoadResult(i, c, v), LoadResult(i, Commit(c), v), NextAfter(c));
    }
  }

  // The instruction at the program counter, if it can be fetched, has nothing
  // to do with the register being loaded.
  predicate NoHazardAt(c: CpuState, mem: seq<Byte>) {
    match FlatRead(mem, c.pc, Four)
    case ReadFails(_) => true
    case Value(raw) => NoHazard(Decode(raw), c)
  }

  lemma NoHazardSame(c: CpuState, mem: seq<Byte>)
    requires NoHazardAt(c, mem)
    ensures SameOutcome(FlatStep(c, mem), FlatStep(Commit(c), mem))
  {
    hide FlatExecute, Decode, FlatRead, Same, Trapped, NoHazard;
    match FlatRead(mem, c.pc, Four)
    case ReadFails(exc) => TrapUnnamed(c, c.pc);
    case Value(raw) => UnnamedSame(Decode(raw), c, mem);
  }

  // Such an instruction agrees with the flat step whatever faults it takes.
  lemma InvisibleWithoutHazard(c: CpuState, vm: Vm, n: nat)
    requires Inv(vm) && Shape(vm) && !IsFault(Retry(c, vm, n)) && NoHazardAt(c, Flat(vm, vm.cur))
    ensures AgreesSame(vm, Retry(c, vm, n), FlatStep(c, Flat(vm, vm.cur)))
  {
    hide Flat, Inv, Retry, PagedStep, FlatStep, AgreesSame, SameOutcome, Commit, NoHazardAt;
    NoHazardSame(c, Flat(vm, vm.cur));
    InvisibleIff(c, vm, n);
  }
}
