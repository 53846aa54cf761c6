// The simulated machine as the source has it: a register array, the main
// memory as one array of bytes, and the page table of the current address
// space, all updated in place.
module Machine {
  import opened Words
  import opened Paging
  import opened Memory
  import opened Mips
  import opened Steps
  import Multiply

  class AddrSpace {
    var pageTable: seq<Pte>
    var swapFile: seq<Page>

    constructor (table: seq<Pte>, swap: seq<Page>)
      ensures pageTable == table && swapFile == swap
    {
      pageTable, swapFile := table, swap;
    }
  }

  // The frames of a memory of n pages.
  ghost function FramesOf(mem: seq<Byte>, n: nat): (frames: seq<Page>)
    requires |mem| == 128 * n
    ensures |frames| == n
  {
    seq(n, p requires 0 <= p < n => mem[128 * p..128 * p + 128])
  }

  lemma ByteInFrame(mem: seq<Byte>, n: nat, p: nat, off: nat, len: nat)
    requires |mem| == 128 * n && p < n && off + len <= 128
    ensures 128 * p + off + len <= |mem|
    ensures FramesOf(mem, n)[p][off..off + len] == mem[128 * p + off..128 * p + off + len]
  {
    SliceOfSlice(mem, 128 * p, off, len);
  }

  lemma SliceOfSlice(mem: seq<Byte>, base: nat, off: nat, len: nat)
    requires base + 128 <= |mem| && off + len <= 128
    ensures mem[base..base + 128][off..off + len] == mem[base + off..base + off + len]
  {
    var a, b := mem[base..base + 128][off..off + len], mem[base + off..base + off + len];
    forall i: nat | i < len
      ensures a[i] == b[i]
    {
    }
  }

  // A splice inside one frame changes that frame alone.
  lemma SpliceInFrame(mem: seq<Byte>, n: nat, p: nat, off: nat, bytes: seq<Byte>)
    requires |mem| == 128 * n && p < n && off + |bytes| <= 128
    ensures 128 * p + off + |bytes| <= |mem|
    ensures FramesOf(Splice(mem, 128 * p + off, bytes), n) ==
            FramesOf(mem, n)[p := Splice(FramesOf(mem, n)[p], off, bytes)]
  {
    var mem', frames := Splice(mem, 128 * p + off, bytes), FramesOf(mem, n);
    forall q | 0 <= q < n
      ensures FramesOf(mem', n)[q] == frames[p := Splice(frames[p], off, bytes)][q]
    {
      if q < p {
        assert 128 * q + 128 <= 128 * p;
      } else if q > p {
        assert 128 * p + 128 <= 128 * q;
      }
    }
  }

  class Machine {
    const registers: array<Word>
    const mainMemory: array<Byte>
    var space: AddrSpace          // whose page table is in use

    ghost predicate Valid()
      reads this, registers
    {
      && registers.Length == 40
      && registers[0] == 0 && registers[37] < 32
      && mainMemory.Length % 128 == 0
      && registers as object != mainMemory
    }

    // The register file as a CPU state.
    function Cpu(): Cpu
      requires registers.Length == 40
      reads this, registers
    {
      Mips.Cpu(registers[..34], registers[34], registers[35], registers[36],
               registers[37], registers[38], registers[39])
    }

    // The machine's part of a paging state.
    ghost predicate Shows(vm: Vm)
      reads this, mainMemory, space
    {
      && Shape(vm)
      && mainMemory.Length == 128 * |vm.frames|
      && FramesOf(mainMemory[..], |vm.frames|) == vm.frames
      && space.pageTable == vm.spaces[vm.cur].table
    }

    constructor (numPhysPages: nat, s: AddrSpace)
      ensures Valid() && fresh(registers) && fresh(mainMemory)
      ensures mainMemory.Length == 128 * numPhysPages && space == s
      ensures Cpu() == Mips.Cpu(seq(34, i => 0), 0, 0, 0, 0, 0, 0)
      ensures forall i :: 0 <= i < mainMemory.Length ==> mainMemory[i] == 0
    {
      registers := new Word[40](i => 0);
      mainMemory := new Byte[128 * numPhysPages](i => 0);
      space := s;
    }

    method Translate(virtAddr: Word, size: Size, writing: bool, ghost vm: Vm)
      returns (exc: Exception, physAddr: nat)
      requires Shows(vm)
      modifies space`pageTable
      ensures exc == Memory.Translate(vm, virtAddr, size, writing)
      ensures exc == NoException ==>
                && physAddr == 128 * Entry(vm, vm.cur, virtAddr / 128).physicalPage + virtAddr % 128
                && space.pageTable == Touch(vm, virtAddr / 128, writing).spaces[vm.cur].table
      ensures exc != NoException ==> space.pageTable == old(space.pageTable)
    {
      physAddr := 0;
      if (size == Four && virtAddr % 4 != 0) || (size == Two && virtAddr % 2 != 0) {
        return AddressErrorException, physAddr;
      }
      var vpn, offset := virtAddr / 128, virtAddr % 128;
      if vpn >= |space.pageTable| {
        return AddressErrorException, physAddr;
      } else if !space.pageTable[vpn].valid {
        return PageFaultException, physAddr;
      }
      var entry := space.pageTable[vpn];
      if entry.readOnly && writing {
        return ReadOnlyException, physAddr;
      }
      if !(0 <= entry.physicalPage < mainMemory.Length / 128) {
        return BusErrorException, physAddr;
      }
      space.pageTable := space.pageTable[vpn := entry.(use := true, dirty := entry.dirty || writing)];
      return NoException, entry.physicalPage * 128 + offset;
    }

    // Machine::ReadMem up to its call of RaiseException.
    method ReadMem(addr: Word, size: Size, ghost vm: Vm) returns (exc: Exception, value: Word)
      requires Shows(vm)
      modifies space`pageTable
      ensures match Memory.ReadMem(vm, addr, size)
              case PagedValue(w, vm') => exc == NoException && value == w && Shows(vm')
              case PagedReadFails(e) => exc == e != NoException && space.pageTable == old(space.pageTable)
    {
      hide Memory.ReadMem;
      var physAddr;
      exc, physAddr := Translate(addr, size, false, vm);
      value := 0;
      ReadCases(vm, addr, size);
      if exc == NoException {
        FitsPage(addr, size);
        ghost var p := Entry(vm, vm.cur, addr / 128).physicalPage;
        ByteInFrame(mainMemory[..], |vm.frames|, p, addr % 128, size.Bytes());
        match size {
          case One => value := LoadedValue([mainMemory[physAddr]], One);
          case Two => value := LoadedValue([mainMemory[physAddr], mainMemory[physAddr + 1]], Two);
          case Four =>
            value := LoadedValue([mainMemory[physAddr], mainMemory[physAddr + 1],
                                  mainMemory[physAddr + 2], mainMemory[physAddr + 3]], Four);
        }
        assert value == LoadedValue(mainMemory[..][physAddr..physAddr + size.Bytes()], size);
      }
    }

    method StoreBytes(physAddr: nat, size: Size, value: Word)
      requires physAddr + size.Bytes() <= mainMemory.Length
      modifies mainMemory
      ensures mainMemory[..] == Splice(old(mainMemory[..]), physAddr, StoredBytes(value, size))
    {
      hide ByteOf;
      mainMemory[physAddr] := ByteOf(value, 0);
      if size != One {
        mainMemory[physAddr + 1] := ByteOf(value, 1);
      }
      if size == Four {
        mainMemory[physAddr + 2], mainMemory[physAddr + 3] := ByteOf(value, 2), ByteOf(value, 3);
      }
    }

    method WriteMem(addr: Word, size: Size, value: Word, ghost vm: Vm) returns (exc: Exception)
      requires Shows(vm)
      modifies space`pageTable, mainMemory
      ensures match Memory.WriteMem(vm, addr, size, value)
              case PagedWritten(vm') => exc == NoException && Shows(vm')
              case PagedWriteFails(e) =>
                exc == e != NoException && space.pageTable == old(space.pageTable)
                && mainMemory[..] == old(mainMemory[..])
    {
      hide Memory.WriteMem, StoredBytes, Memory.Translate;
      var physAddr;
      exc, physAddr := Translate(addr, size, true, vm);
      WriteCases(vm, addr, size, value);
      if exc == NoException {
        FitsPage(addr, size);
        ghost var p := Entry(vm, vm.cur, addr / 128).physicalPage;
        SpliceInFrame(mainMemory[..], |vm.frames|, p, addr % 128, StoredBytes(value, size));
        StoreBytes(physAddr, size, value);
      }
    }

    // Machine::DelayedLoad
    method DelayedLoad(nextReg: nat, nextValue: Word)
      requires registers.Length == 40 && registers[37] < 32 && nextReg < 32 && mainMemory.Length % 128 == 0
      requires registers as object != mainMemory
      modifies registers
      ensures Valid() && Cpu() == Mips.DelayedLoad(old(Cpu()), nextReg, nextValue)
    {
      registers[registers[37]] := registers[38];
      registers[37] := nextReg;
      registers[38] := nextValue;
      registers[0] := 0;
      assert registers[..34] == old(registers[..34])[old(registers[37]) := old(registers[38])][0 := 0];
    }

    // Machine::RaiseException up to the call of the handler.
    method RaiseException(badVAddr: Word)
      requires Valid()
      modifies registers
      ensures Valid() && Cpu() == Trapped(old(Cpu()), badVAddr)
    {
      registers[39] := badVAddr;
      assert registers[..34] == old(registers[..34]);
      DelayedLoad(0, 0);
    }

    // The end of OneInstruction.
    method Advance(loadReg: nat, loadValue: Word, pcAfter: Word, ghost before: Cpu)
      requires registers.Length == 40 && registers[37] < 32 && loadReg < 32 && mainMemory.Length % 128 == 0
      requires Cpu() == before.(regs := registers[..34])
      modifies registers
      ensures Valid() && Cpu() == Finish(before, old(registers[..34]), loadReg, loadValue, pcAfter)
    {
      DelayedLoad(loadReg, loadValue);
      registers[36] := registers[34];
      registers[34] := registers[35];
      registers[35] := pcAfter;
      assert registers[..34] == Mips.DelayedLoad(old(Cpu()), loadReg, loadValue).regs;
    }

    // Branches and jumps of OneInstruction.
    method Branch(i: Instruction) returns (pcAfter: Word)
      requires Valid() && IsBranch(i.op) && i.rs < 32 && i.rt < 32 && i.rd < 32
      modifies registers
      ensures registers.Length == 40 && Cpu() == old(Cpu()).(regs := registers[..34])
      ensures BranchEffect(i, old(registers[..34]), old(registers[35])) == Done(registers[..34], pcAfter)
    {
      hide BranchTarget;
      var next: int := registers[35];
      var after := Wrap(next + 4);
      if i.op == BGEZAL || i.op == BLTZAL || i.op == JAL {
        registers[31] := after;
      } else if i.op == JALR {
        registers[i.rd] := after;
      }
      pcAfter := BranchTarget(i.op, registers[i.rs], registers[i.rt], i.extra, next);
      assert registers[..34] == Linked(i, old(registers[..34]), after);
    }

    // Multiplication, division and the moves to and from HI and LO.
    method HiLo(i: Instruction)
      requires Valid() && IsHiLo(i.op) && i.rs < 32 && i.rt < 32 && i.rd < 32
      modifies registers
      ensures registers.Length == 40 && Cpu() == old(Cpu()).(regs := registers[..34])
      ensures registers[..34] == HiLoRegs(i, old(registers[..34]))
    {
      hide HiLoPair;
      if i.op == MFHI {
        registers[i.rd] := registers[32];
      } else if i.op == MFLO {
        registers[i.rd] := registers[33];
      } else if i.op == MTHI {
        registers[32] := registers[i.rs];
      } else if i.op == MTLO {
        registers[33] := registers[i.rs];
      } else {
        registers[32], registers[33] := MulDiv(i.op, registers[i.rs], registers[i.rt]);
      }
      assert registers[..34] == HiLoRegs(i, old(registers[..34]));
    }

    // Every other instruction that only computes; true if it overflows.
    method Compute(i: Instruction) returns (overflow: bool)
      requires Valid() && i.rs < 32 && i.rt < 32 && i.rd < 32
      modifies registers
      ensures registers.Length == 40 && Cpu() == old(Cpu()).(regs := registers[..34])
      ensures var r := old(registers[..34]);
              && overflow == Overflows(i.op, r[i.rs], r[i.rt], i.extra)
              && registers[..34] == if overflow then r else
                   r[(if IsImmediate(i.op) then i.rt else i.rd) := AluValue(i.op, r[i.rs], r[i.rt], i.extra)]
    {
      hide AluValue, Overflows;
      overflow := Overflows(i.op, registers[i.rs], registers[i.rt], i.extra);
      if !overflow {
        var target := if IsImmediate(i.op) then i.rt else i.rd;
        registers[target] := AluValue(i.op, registers[i.rs], registers[i.rt], i.extra);
        assert registers[..34] == old(registers[..34])[target := registers[target]];
      }
    }

    method Load(i: Instruction, addr: Word, size: Size, ghost vm: Vm) returns (exc: Exception, ghost vm': Vm)
      requires Valid() && Shows(vm) && i.rs < 32 && i.rt < 32
      modifies registers, space`pageTable
      ensures Valid() && Shows(vm')
      ensures Ends(LoadOutcome(i, old(Cpu()), vm, addr, size), exc, Cpu(), vm')
    {
      hide Memory.ReadMem, LoadResult, Wrap;
      vm' := vm;
      ghost var before := Cpu();
      var value;
      exc, value := ReadMem(addr, size, vm);
      if exc != NoException {
        RaiseException(addr);
      } else {
        vm' := Memory.ReadMem(vm, addr, size).vm;
        Advance(i.rt, LoadResult(i, Cpu(), value), NextAfter(Cpu()), before);
      }
    }

    method Store(addr: Word, size: Size, value: Word, ghost vm: Vm) returns (exc: Exception, ghost vm': Vm)
      requires Valid() && Shows(vm)
      modifies registers, mainMemory, space`pageTable
      ensures Valid() && Shows(vm')
      ensures Ends(StoreOutcome(old(Cpu()), vm, addr, size, value), exc, Cpu(), vm')
    {
      hide Memory.WriteMem, Wrap;
      vm' := vm;
      ghost var before := Cpu();
      exc := WriteMem(addr, size, value, vm);
      if exc != NoException {
        RaiseException(addr);
      } else {
        vm' := Memory.WriteMem(vm, addr, size, value).vm;
        Advance(0, 0, NextAfter(Cpu()), before);
      }
    }

    method Merge(i: Instruction, addr: Word, ghost vm: Vm) returns (exc: Exception, ghost vm': Vm)
      requires Valid() && Shows(vm) && i.rs < 32 && i.rt < 32
      modifies registers, mainMemory, space`pageTable
      ensures Valid() && Shows(vm')
      ensures Ends(MergeOutcome(i, old(Cpu()), vm, addr), exc, Cpu(), vm')
    {
      hide Memory.ReadMem, StoreOutcome, MergeResult, Wrap;
      vm' := vm;
      ghost var before := Cpu();
      var value;
      exc, value := ReadMem(addr, Four, vm);
      if exc != NoException {
        RaiseException(addr);
      } else {
        exc, vm' := Store(addr, Four, MergeResult(i, Cpu().regs, value), Memory.ReadMem(vm, addr, Four).vm);
      }
    }

    // The switch of OneInstruction.
    method Execute(i: Instruction, ghost vm: Vm) returns (exc: Exception, ghost vm': Vm)
      requires Valid() && Shows(vm) && Handled(i.op) && i.rs < 32 && i.rt < 32 && i.rd < 32
      modifies registers, mainMemory, space`pageTable
      ensures Valid() && Shows(vm')
      ensures Ends(PagedExecute(i, old(Cpu()), vm), exc, Cpu(), vm')
    {
      hide LoadOutcome, StoreOutcome, MergeOutcome, AluValue, Overflows, HiLoRegs, BranchEffect, Wrap;
      vm', exc := vm, NoException;
      ghost var before := Cpu();
      var after := NextAfter(Cpu());
      if i.op == SYSCALL {
        exc := SyscallException;
        RaiseException(0);
      } else if IsTrap(i.op) {
        exc := IllegalInstrException;
        RaiseException(0);
      } else if IsMemory(i.op) {
        exc, vm' := Access(i, vm);
      } else if IsBranch(i.op) {
        var pcAfter := Branch(i);
        Advance(0, 0, pcAfter, before);
      } else if IsHiLo(i.op) {
        HiLo(i);
        Advance(0, 0, after, before);
      } else {
        var overflow := Compute(i);
        if overflow {
          exc := OverflowException;
          RaiseException(0);
        } else {
          Advance(0, 0, after, before);
        }
      }
    }

    method Access(i: Instruction, ghost vm: Vm) returns (exc: Exception, ghost vm': Vm)
      requires Valid() && Shows(vm) && IsMemory(i.op) && i.rs < 32 && i.rt < 32 && i.rd < 32
      modifies registers, mainMemory, space`pageTable
      ensures Valid() && Shows(vm')
      ensures Ends(PagedExecute(i, old(Cpu()), vm), exc, Cpu(), vm')
    {
      hide LoadOutcome, StoreOutcome, MergeOutcome, MemoryEffect, EffectOf, Memory.ReadMem, Memory.WriteMem;
      vm' := vm;
      MemoryOnly(i, Cpu().regs, Cpu().nextPc);
      match MemoryEffect(i, Cpu().regs) {
        case Trap(e, bad) =>
          exc := e;
          MemoryTrap(i, Cpu().regs);
          RaiseException(bad);
        case LoadFrom(addr, size) => exc, vm' := Load(i, addr, size, vm);
        case StoreTo(addr, size, value) => exc, vm' := Store(addr, size, value, vm);
        case MergeAt(addr) => exc, vm' := Merge(i, addr, vm);
        case Done(_, _) =>
          MemoryNotDone(i, Cpu().regs);
          assert false;
      }
    }

    // Machine::OneInstruction.  The exception handler runs when it returns.
    method OneInstruction(ghost vm: Vm) returns (exc: Exception, ghost vm': Vm)
      requires Valid() && Inv(vm) && Shows(vm)
      modifies registers, mainMemory, space`pageTable
      ensures Valid() && Shows(vm')
      ensures Ends(PagedStep(old(Cpu()), vm), exc, Cpu(), vm')
    {
      hide PagedExecute, Memory.ReadMem, Inv;
      vm' := vm;
      var raw;
      exc, raw := ReadMem(registers[34], Four, vm);
      if exc != NoException {
        RaiseException(registers[34]);
      } else {
        exc, vm' := Execute(Decode(raw), Memory.ReadMem(vm, registers[34], Four).vm);
      }
    }
  }

  lemma MemoryOnly(i: Instruction, r: Regs, nextPc: Word)
    requires IsMemory(i.op) && i.rs < 32 && i.rt < 32 && i.rd < 32
    ensures EffectOf(i, r, nextPc) == MemoryEffect(i, r)
  {
  }

  lemma MemoryTrap(i: Instruction, r: Regs)
    requires IsMemory(i.op) && i.rs < 32 && i.rt < 32
    ensures MemoryEffect(i, r).Trap? ==> MemoryEffect(i, r).exc == AddressErrorException
  {
  }

  lemma MemoryNotDone(i: Instruction, r: Regs)
    requires IsMemory(i.op) && i.rs < 32 && i.rt < 32
    ensures !MemoryEffect(i, r).Done?
  {
  }

  // How a method's results stand for an outcome.
  ghost predicate Ends(out: Outcome<Vm>, exc: Exception, cpu: Cpu, vm: Vm) {
    && out.cpu == cpu && out.mem == vm
    && (out.Completed? ==> exc == NoException)
    && (out.Raised? ==> exc == out.exc != NoException)
  }

  method MulDiv(op: Op, s: Word, t: Word) returns (hi: Word, lo: Word)
    requires op in {MULT, MULTU, DIV, DIVU}
    ensures (hi, lo) == HiLoPair(op, s, t)
  {
    hide Quotient, Remainder, Multiply.Reading, Multiply.Product, Multiply.HighWord, Multiply.LowWord;
    if op == MULT || op == MULTU {
      hi, lo := Multiply.Mult(s, t, op == MULT);
    } else if t == 0 {
      hi, lo := 0, 0;
    } else if op == DIV {
      lo := Wrap(Quotient(Signed(s), Signed(t)));
      hi := Wrap(Remainder(Signed(s), Signed(t)));
    } else {
      lo, hi := s / t, s % t;
    }
  }

  lemma ReadCases(vm: Vm, addr: Word, size: Size)
    requires Shape(vm)
    ensures var exc := Memory.Translate(vm, addr, size, false);
            if exc != NoException then Memory.ReadMem(vm, addr, size) == PagedReadFails(exc)
            else
              && !Misaligned(addr, size) && InTable(vm, vm.cur, addr / 128)
              && 0 <= Entry(vm, vm.cur, addr / 128).physicalPage < |vm.frames|
              && addr % 128 + size.Bytes() <= 128
              && Memory.ReadMem(vm, addr, size) ==
                 PagedValue(LoadedValue(vm.frames[Entry(vm, vm.cur, addr / 128).physicalPage]
                                          [addr % 128..addr % 128 + size.Bytes()], size),
                            Touch(vm, addr / 128, false))
              && Shape(Touch(vm, addr / 128, false)) && Touch(vm, addr / 128, false).frames == vm.frames
              && Touch(vm, addr / 128, false).cur == vm.cur
  {
    hide LoadedValue, Touch, Memory.Translate;
    if Memory.Translate(vm, addr, size, false) == NoException {
      TranslatedEntry(vm, addr, size, false);
      FitsPage(addr, size);
      TouchShape(vm, addr / 128, false);
    }
  }

  lemma WriteCases(vm: Vm, addr: Word, size: Size, value: Word)
    requires Shape(vm)
    ensures var exc := Memory.Translate(vm, addr, size, true);
            if exc != NoException then Memory.WriteMem(vm, addr, size, value) == PagedWriteFails(exc)
            else
              && !Misaligned(addr, size) && InTable(vm, vm.cur, addr / 128)
              && var p := Entry(vm, vm.cur, addr / 128).physicalPage;
              && 0 <= p < |vm.frames|
              && addr % 128 + size.Bytes() <= 128
              && var vm' := Touch(vm, addr / 128, true)
                   .(frames := vm.frames[p := Splice(vm.frames[p], addr % 128, StoredBytes(value, size))]);
              && Memory.WriteMem(vm, addr, size, value) == PagedWritten(vm')
              && Shape(vm') && vm'.cur == vm.cur
  {
    hide StoredBytes, Splice, Touch, Memory.Translate;
    if Memory.Translate(vm, addr, size, true) == NoException {
      TranslatedEntry(vm, addr, size, true);
      FitsPage(addr, size);
      TouchShape(vm, addr / 128, true);
    }
  }

  lemma TranslatedEntry(vm: Vm, addr: Word, size: Size, writing: bool)
    requires Shape(vm) && Memory.Translate(vm, addr, size, writing) == NoException
    ensures !Misaligned(addr, size) && InTable(vm, vm.cur, addr / 128)
    ensures 0 <= Entry(vm, vm.cur, addr / 128).physicalPage < |vm.frames|
  {
  }

  lemma TouchShape(vm: Vm, v: nat, writing: bool)
    requires Shape(vm) && InTable(vm, vm.cur, v)
    ensures Shape(Touch(vm, v, writing)) && Touch(vm, v, writing).frames == vm.frames
    ensures Touch(vm, v, writing).cur == vm.cur
  {
  }
}
