// One instruction on a flat memory and on the paged memory, and the service
// of its page faults.
module Steps {
  import opened Words
  import opened Paging
  import opened Memory
  import opened Mips

  type CpuState = c: Cpu | WellFormed(c)
    witness Cpu(seq(34, i => 0), 0, 4, 0, 0, 0, 0)

  // How an attempt at an instruction ends: with the instruction done, or in
  // the exception handler, with the CPU as the handler finds it.
  datatype Outcome<M> = Completed(cpu: CpuState, mem: M) | Raised(exc: Exception, cpu: CpuState, mem: M)

  function NextAfter(c: Cpu): Word { Wrap(c.nextPc + 4) }

  // OneInstruction over a flat memory.
  function FlatStep(c: CpuState, mem: seq<Byte>): Outcome<seq<Byte>> {
    match FlatRead(mem, c.pc, Four)
    case ReadFails(exc) => Raised(exc, Trapped(c, c.pc), mem)
    case Value(raw) => FlatExecute(Decode(raw), c, mem)
  }

  function FlatExecute(i: Instruction, c: CpuState, mem: seq<Byte>): Outcome<seq<Byte>>
    requires Handled(i.op) && i.rs < 32 && i.rt < 32 && i.rd < 32
  {
    match EffectOf(i, c.regs, c.nextPc)
    case Trap(exc, bad) => Raised(exc, Trapped(c, bad), mem)
    case Done(regs, pcAfter) => Completed(Finish(c, regs, 0, 0, pcAfter), mem)
    case LoadFrom(addr, size) => (
      match FlatRead(mem, addr, size)
      case ReadFails(exc) => Raised(exc, Trapped(c, addr), mem)
      case Value(v) => Completed(Finish(c, c.regs, i.rt, LoadResult(i, c, v), NextAfter(c)), mem))
    case StoreTo(addr, size, v) => (
      match FlatWrite(mem, addr, size, v)
      case WriteFails(exc) => Raised(exc, Trapped(c, addr), mem)
      case Written(mem') => Completed(Finish(c, c.regs, 0, 0, NextAfter(c)), mem'))
    case MergeAt(addr) =>
      match FlatRead(mem, addr, Four)
      case ReadFails(exc) => Raised(exc, Trapped(c, addr), mem)
      case Value(v) =>
        match FlatWrite(mem, addr, Four, MergeResult(i, c.regs, v))
        case WriteFails(exc) => Raised(exc, Trapped(c, addr), mem)
        case Written(mem') => Completed(Finish(c, c.regs, 0, 0, NextAfter(c)), mem')
  }

  // The memory accesses of an instruction over the paged memory.
  ghost function LoadOutcome(i: Instruction, c: CpuState, vm: Vm, addr: Word, size: Size): Outcome<Vm>
    requires Shape(vm) && i.rs < 32 && i.rt < 32
  {
    match ReadMem(vm, addr, size)
    case PagedReadFails(exc) => Raised(exc, Trapped(c, addr), vm)
    case PagedValue(v, vm') => Completed(Finish(c, c.regs, i.rt, LoadResult(i, c, v), NextAfter(c)), vm')
  }

  ghost function StoreOutcome(c: CpuState, vm: Vm, addr: Word, size: Size, v: Word): Outcome<Vm>
    requires Shape(vm)
  {
    match WriteMem(vm, addr, size, v)
    case PagedWriteFails(exc) => Raised(exc, Trapped(c, addr), vm)
    case PagedWritten(vm') => Completed(Finish(c, c.regs, 0, 0, NextAfter(c)), vm')
  }

  ghost function MergeOutcome(i: Instruction, c: CpuState, vm: Vm, addr: Word): Outcome<Vm>
    requires Shape(vm) && i.rs < 32 && i.rt < 32
  {
    match ReadMem(vm, addr, Four)
    case PagedReadFails(exc) => Raised(exc, Trapped(c, addr), vm)
    case PagedValue(v, vm') => StoreOutcome(c, vm', addr, Four, MergeResult(i, c.regs, v))
  }

  // OneInstruction over the paged memory.
  ghost function PagedStep(c: CpuState, vm: Vm): Outcome<Vm>
    requires Inv(vm)
  {
    match ReadMem(vm, c.pc, Four)
    case PagedReadFails(exc) => Raised(exc, Trapped(c, c.pc), vm)
    case PagedValue(raw, vm') => PagedExecute(Decode(raw), c, vm')
  }

  ghost function PagedExecute(i: Instruction, c: CpuState, vm: Vm): Outcome<Vm>
    requires Shape(vm) && Handled(i.op) && i.rs < 32 && i.rt < 32 && i.rd < 32
  {
    match EffectOf(i, c.regs, c.nextPc)
    case Trap(exc, bad) => Raised(exc, Trapped(c, bad), vm)
    case Done(regs, pcAfter) => Completed(Finish(c, regs, 0, 0, pcAfter), vm)
    case LoadFrom(addr, size) => LoadOutcome(i, c, vm, addr, size)
    case StoreTo(addr, size, v) => StoreOutcome(c, vm, addr, size, v)
    case MergeAt(addr) => MergeOutcome(i, c, vm, addr)
  }
}
