// Delayed loads, delayed branches and precise exceptions: what one
// instruction leaves for the next, whatever the two instructions are.
module Delays {
  import opened Words
  import opened Memory
  import opened Mips
  import opened Steps

  // The state a pending load leaves behind when it lands.
  predicate Landed(c: Cpu, d: Cpu) { c.loadReg != 0 && c.loadReg < 32 ==> d.regs[c.loadReg] == c.loadValue }

  // What an instruction may leave in the CPU.
  predicate FollowsOn(c: CpuState, out: Outcome<seq<Byte>>, mem: seq<Byte>) {
    && Landed(c, out.cpu)
    && (out.Completed? ==> out.cpu.pc == c.nextPc && out.cpu.prevPc == c.pc)
    && (out.Raised? ==> out.mem == mem && out.cpu == Trapped(c, out.cpu.badVAddr))
  }

  lemma FinishFollows(c: CpuState, regs: Regs, loadReg: nat, v: Word, pcAfter: Word, mem: seq<Byte>, mem': seq<Byte>)
    requires loadReg < 32
    ensures FollowsOn(c, Completed(Finish(c, regs, loadReg, v, pcAfter), mem'), mem)
  {
  }

  lemma TrapFollows(c: CpuState, exc: Exception, bad: Word, mem: seq<Byte>)
    ensures FollowsOn(c, Raised(exc, Trapped(c, bad), mem), mem)
  {
  }

  // A load that is pending when an instruction starts has landed when it is
  // over, even if the instruction wrote the register itself or raised an
  // exception.  An instruction that completes is followed by the one that
  // was next, so a branch takes effect one instruction later.  One that
  // raises an exception leaves the memory and, but for the load, the
  // registers and program counters as they were.
  lemma InstructionFollows(c: CpuState, mem: seq<Byte>)
    ensures FollowsOn(c, FlatStep(c, mem), mem)
  {
    hide FlatRead, Decode, FlatExecute, FollowsOn, Trapped;
    match FlatRead(mem, c.pc, Four)
    case ReadFails(exc) => TrapFollows(c, exc, c.pc, mem);
    case Value(raw) => ExecuteFollows(Decode(raw), c, mem);
  }

  lemma ExecuteFollows(i: Instruction, c: CpuState, mem: seq<Byte>)
    requires Handled(i.op) && i.rs < 32 && i.rt < 32 && i.rd < 32
    ensures FollowsOn(c, FlatExecute(i, c, mem), mem)
  {
    hide EffectOf, FlatRead, FlatWrite, Finish, Trapped, LoadResult, MergeResult, FollowsOn;
    var after := NextAfter(c);
    match EffectOf(i, c.regs, c.nextPc)
    case Trap(exc, bad) => TrapFollows(c, exc, bad, mem);
    case Done(regs, pcAfter) => FinishFollows(c, regs, 0, 0, pcAfter, mem, mem);
    case LoadFrom(addr, size) =>
      match FlatRead(mem, addr, size) {
        case ReadFails(exc) => TrapFollows(c, exc, addr, mem);
        case Value(v) => FinishFollows(c, c.regs, i.rt, LoadResult(i, c, v), after, mem, mem);
      }
    case StoreTo(addr, size, v) => StoreFollows(c, mem, addr, size, v);
    case MergeAt(addr) =>
      match FlatRead(mem, addr, Four)
      case ReadFails(exc) => TrapFollows(c, exc, addr, mem);
      case Value(v) => StoreFollows(c, mem, addr, Four, MergeResult(i, c.regs, v));
  }

  lemma StoreFollows(c: CpuState, mem: seq<Byte>, addr: Word, size: Size, v: Word)
    ensures match FlatWrite(mem, addr, size, v)
            case WriteFails(exc) => FollowsOn(c, Raised(exc, Trapped(c, addr), mem), mem)
            case Written(mem') => FollowsOn(c, Completed(Finish(c, c.regs, 0, 0, NextAfter(c)), mem'), mem)
  {
    hide FlatWrite, Finish, Trapped, FollowsOn;
    match FlatWrite(mem, addr, size, v)
    case WriteFails(exc) => TrapFollows(c, exc, addr, mem);
    case Written(mem') => FinishFollows(c, c.regs, 0, 0, NextAfter(c), mem, mem');
  }

  // Only a branch changes where the instruction after the next one is.
  lemma OnlyBranchesBranch(i: Instruction, c: CpuState, mem: seq<Byte>)
    requires Handled(i.op) && i.rs < 32 && i.rt < 32 && i.rd < 32 && !IsBranch(i.op)
    ensures FlatExecute(i, c, mem).Completed? ==> FlatExecute(i, c, mem).cpu.nextPc == Wrap(c.nextPc + 4)
  {
    hide FlatRead, FlatWrite, LoadResult, MergeResult, MemoryEffect, HiLoRegs, AluValue, Overflows, Wrap;
    if IsMemory(i.op) {
      MemoryComputesNothing(i, c.regs);
    }
  }

  lemma MemoryComputesNothing(i: Instruction, r: Regs)
    requires IsMemory(i.op) && i.rs < 32 && i.rt < 32
    ensures !MemoryEffect(i, r).Done?
  {
    hide AddressOf;
  }

  // Two instructions that complete one after the other: the third is fetched
  // from where the first one said, and a load started by the first has landed
  // by then.
  lemma DelaySlot(c: CpuState, mem: seq<Byte>)
    requires FlatStep(c, mem).Completed?
    requires var one := FlatStep(c, mem); FlatStep(one.cpu, one.mem).Completed?
    ensures var one := FlatStep(c, mem);
            var two := FlatStep(one.cpu, one.mem);
            && one.cpu.pc == c.nextPc && two.cpu.pc == one.cpu.nextPc
            && (one.cpu.loadReg != 0 ==> two.cpu.regs[one.cpu.loadReg] == one.cpu.loadValue)
  {
    hide FlatStep;
    var one := FlatStep(c, mem);
    InstructionFollows(c, mem);
    InstructionFollows(one.cpu, one.mem);
  }
}
