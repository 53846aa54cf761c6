// Unaligned words: the instruction pairs SWR/SWL and LWR/LWL.
module Unaligned {
  import opened Words
  import opened Memory
  import opened Mips
  import opened Steps
  import opened Refinement
  import opened Hazards
  import opened Delays

  lemma LoadRightByte(kept: Word, v: Word, k: nat, i: nat)
    requires k < 4 && i < 4
    ensures ByteOf(LoadRight(kept, v, k), i) == if i < 4 - k then ByteOf(v, i + k) else ByteOf(kept, i)
  {
  }

  lemma LoadLeftByte(kept: Word, v: Word, k: nat, i: nat)
    requires k < 4 && i < 4
    ensures ByteOf(LoadLeft(kept, v, k), i) == if i >= 3 - k then ByteOf(v, i - (3 - k)) else ByteOf(kept, i)
  {
  }

  lemma StoreRightByte(v: Word, t: Word, k: nat, i: nat)
    requires k < 4 && i < 4
    ensures ByteOf(StoreRight(v, t, k), i) == if i >= k then ByteOf(t, i - k) else ByteOf(v, i)
  {
  }

  lemma StoreLeftByte(v: Word, t: Word, k: nat, i: nat)
    requires k < 4 && i < 4
    ensures ByteOf(StoreLeft(v, t, k), i) == if i <= k then ByteOf(t, i + (3 - k)) else ByteOf(v, i)
  {
  }

  lemma SameBytes(v: Word, w: Word)
    requires forall i: nat :: i < 4 ==> ByteOf(v, i) == ByteOf(w, i)
    ensures v == w
  {
    hide ByteOf;
    JoinBytes(v);
    JoinBytes(w);
    assert ByteOf(v, 0) == ByteOf(w, 0) && ByteOf(v, 1) == ByteOf(w, 1) && ByteOf(v, 2) == ByteOf(w, 2)
           && ByteOf(v, 3) == ByteOf(w, 3);
  }

  // The word stored at byte address a of a memory.
  function WordAt(mem: seq<Byte>, a: nat): (w: Word)
    requires a + 4 <= |mem|
    ensures forall i: nat :: i < 4 ==> ByteOf(w, i) == mem[a + i]
  {
    Join(mem[a], mem[a + 1], mem[a + 2], mem[a + 3])
  }

  lemma AlignedRead(mem: seq<Byte>, a: Word)
    requires a % 4 == 0 && a + 4 <= |mem|
    ensures FlatRead(mem, a, Four) == Value(WordAt(mem, a))
  {
  }

  lemma AlignedWrite(mem: seq<Byte>, a: Word, v: Word)
    requires a % 4 == 0 && a + 4 <= |mem|
    ensures FlatWrite(mem, a, Four, v).Written?
    ensures var mem' := FlatWrite(mem, a, Four, v).mem;
            && |mem'| == |mem|
            && forall j :: 0 <= j < |mem| ==> mem'[j] == if a <= j < a + 4 then ByteOf(v, j - a) else mem[j]
  {
  }

  // Bytes from..to of a register go to memory at address "at".
  function StoreSlice(mem: seq<Byte>, at: nat, t: Word, from: nat, to: nat): (r: seq<Byte>)
    requires from <= to <= 4 && at + (to - from) <= |mem|
    ensures |r| == |mem|
    ensures forall j :: 0 <= j < |mem| ==>
              r[j] == if at <= j < at + (to - from) then ByteOf(t, j - at + from) else mem[j]
  {
    Splice(mem, at, StoredBytes(t, Four)[from..to])
  }

  // SWR at address a stores the low bytes of the register from a to the end
  // of a's word, and touches no other byte.
  lemma StoreRightExact(mem: seq<Byte>, a: Word, t: Word)
    requires var b := a - a % 4; b + 4 <= |mem|
    ensures var b, k := a - a % 4, a % 4;
            && FlatRead(mem, b, Four).Value?
            && FlatWrite(mem, b, Four, StoreRight(FlatRead(mem, b, Four).word, t, k)) ==
               Written(StoreSlice(mem, a, t, 0, 4 - k))
  {
    hide ByteOf, FlatRead, FlatWrite, StoreRight;
    var b, k := a - a % 4, a % 4;
    AlignedRead(mem, b);
    var v := WordAt(mem, b);
    AlignedWrite(mem, b, StoreRight(v, t, k));
    var mem', goal := FlatWrite(mem, b, Four, StoreRight(v, t, k)).mem, StoreSlice(mem, a, t, 0, 4 - k);
    forall j | 0 <= j < |mem|
      ensures mem'[j] == goal[j]
    {
      if b <= j < b + 4 {
        StoreRightByte(v, t, k, j - b);
      }
    }
  }

  // SWL at address a stores the high bytes of the register from the start of
  // a's word up to a, and touches no other byte.
  lemma StoreLeftExact(mem: seq<Byte>, a: Word, t: Word)
    requires var b := a - a % 4; b + 4 <= |mem|
    ensures var b, k := a - a % 4, a % 4;
            && FlatRead(mem, b, Four).Value?
            && FlatWrite(mem, b, Four, StoreLeft(FlatRead(mem, b, Four).word, t, k)) ==
               Written(StoreSlice(mem, b, t, 3 - k, 4))
  {
    hide ByteOf, FlatRead, FlatWrite, StoreLeft;
    var b, k := a - a % 4, a % 4;
    AlignedRead(mem, b);
    var v := WordAt(mem, b);
    AlignedWrite(mem, b, StoreLeft(v, t, k));
    var mem', goal := FlatWrite(mem, b, Four, StoreLeft(v, t, k)).mem, StoreSlice(mem, b, t, 3 - k, 4);
    forall j | 0 <= j < |mem|
      ensures mem'[j] == goal[j]
    {
      if b <= j < b + 4 {
        StoreLeftByte(v, t, k, j - b);
      }
    }
  }

  lemma Neighbours(a: Word)
    requires a <= 0xffff_fffc
    ensures a % 4 == 0 ==> a + 3 - (a + 3) % 4 == a && (a + 3) % 4 == 3
    ensures a % 4 != 0 ==> a + 3 - (a + 3) % 4 == a + 4 - a % 4 && (a + 3) % 4 == a % 4 - 1
  {
  }

  // The unaligned word at a lies inside the memory, with the aligned words
  // around it.
  predicate Reaches(mem: seq<Byte>, a: Word) {
    a <= 0xffff_fffc && a + 4 <= |mem| && |mem| % 4 == 0
  }

  lemma ReachesWords(mem: seq<Byte>, a: Word)
    requires Reaches(mem, a)
    ensures a - a % 4 + 4 <= |mem| && a + 3 - (a + 3) % 4 + 4 <= |mem|
  {
  }

  lemma SlicesJoin(mem: seq<Byte>, a: Word, t: Word)
    requires Reaches(mem, a)
    ensures var k, a' := a % 4, a + 3;
            && (a' - a' % 4) + a' % 4 + 1 <= |mem|
            && StoreSlice(StoreSlice(mem, a, t, 0, 4 - k), a' - a' % 4, t, 3 - a' % 4, 4) == StoreSlice(mem, a, t, 0, 4)
  {
  }

  // ------------------------------------------------- the instruction pairs

  function Right(op: Op, rs: nat, rt: nat, offset: Word): (i: Instruction)
    ensures Handled(op) && rs < 32 && rt < 32 ==> Executable(i)
  {
    Instruction(op, rs, rt, 0, offset)
  }

  function Left(op: Op, rs: nat, rt: nat, offset: Word): (i: Instruction)
    ensures Handled(op) && rs < 32 && rt < 32 ==> Executable(i)
  {
    Instruction(op, rs, rt, 0, Wrap(offset + 3))
  }

  predicate Executable(i: Instruction) {
    Handled(i.op) && i.rs < 32 && i.rt < 32 && i.rd < 32
  }

  // Two instructions, one right after the other.
  function RunPair(first: Instruction, second: Instruction, c: CpuState, mem: seq<Byte>): Outcome<seq<Byte>>
    requires Executable(first) && Executable(second)
  {
    var one := FlatExecute(first, c, mem);
    if one.Completed? then FlatExecute(second, one.cpu, one.mem) else one
  }

  lemma LeftAddress(base: Word, offset: Word)
    requires Wrap(base + offset) <= 0xffff_fffc
    ensures Wrap(base + Wrap(offset + 3)) == Wrap(base + offset) + 3
  {
  }

  // The load on its way does not touch register r.
  predicate Quiet(c: Cpu, r: nat) { c.loadReg == 0 || c.loadReg != r }

  lemma FinishKeeps(c: CpuState, loadReg: nat, v: Word, pcAfter: Word, r: nat)
    requires r < 32 && loadReg < 32 && Quiet(c, r)
    ensures Finish(c, c.regs, loadReg, v, pcAfter).regs[r] == c.regs[r]
  {
  }

  // What the read-modify-write of an SWR or SWL leaves in memory.
  function StoredBy(i: Instruction, c: Cpu, mem: seq<Byte>): seq<Byte>
    requires i.rs < 32 && i.rt < 32
    requires var a := AddressOf(i, c.regs); a - a % 4 + 4 <= |mem|
  {
    var a := AddressOf(i, c.regs);
    if i.op == SWR then StoreSlice(mem, a, c.regs[i.rt], 0, 4 - a % 4)
    else StoreSlice(mem, a - a % 4, c.regs[i.rt], 3 - a % 4, 4)
  }

  lemma MergeWrites(i: Instruction, c: CpuState, mem: seq<Byte>)
    requires (i.op == SWR || i.op == SWL) && i.rs < 32 && i.rt < 32
    requires var a := AddressOf(i, c.regs); a - a % 4 + 4 <= |mem|
    ensures var a := AddressOf(i, c.regs);
            && FlatRead(mem, a - a % 4, Four).Value?
            && FlatWrite(mem, a - a % 4, Four, MergeResult(i, c.regs, FlatRead(mem, a - a % 4, Four).word)) ==
               Written(StoredBy(i, c, mem))
  {
    hide FlatRead, FlatWrite, StoreLeft, StoreRight, AddressOf, StoreSlice;
    var a := AddressOf(i, c.regs);
    if i.op == SWR {
      StoreRightExact(mem, a, c.regs[i.rt]);
    } else {
      StoreLeftExact(mem, a, c.regs[i.rt]);
    }
  }

  lemma StoreStep(i: Instruction, c: CpuState, mem: seq<Byte>)
    requires (i.op == SWR || i.op == SWL) && i.rs < 32 && i.rt < 32 && i.rd < 32
    requires var a := AddressOf(i, c.regs); a - a % 4 + 4 <= |mem|
    ensures FlatExecute(i, c, mem) == Completed(Finish(c, c.regs, 0, 0, NextAfter(c)), StoredBy(i, c, mem))
  {
    hide FlatRead, FlatWrite, MergeResult, Finish, AddressOf, StoredBy, EffectOf;
    StoreEffect(i, c);
    MergeWrites(i, c, mem);
  }

  lemma StoreEffect(i: Instruction, c: CpuState)
    requires (i.op == SWR || i.op == SWL) && i.rs < 32 && i.rt < 32 && i.rd < 32
    ensures var a := AddressOf(i, c.regs); EffectOf(i, c.regs, c.nextPc) == MergeAt(a - a % 4)
  {
  }

  // SWR at a followed by SWL at a+3 stores the register at the unaligned
  // address a and changes no other byte.
  lemma StorePair(c: CpuState, mem: seq<Byte>, rs: nat, rt: nat, offset: Word)
    requires rs < 32 && rt < 32 && Quiet(c, rs) && Quiet(c, rt)
    requires Reaches(mem, Wrap(c.regs[rs] + offset))
    ensures var a := Wrap(c.regs[rs] + offset);
            var out := RunPair(Right(SWR, rs, rt, offset), Left(SWL, rs, rt, offset), c, mem);
            && a + 4 <= |mem| && out.Completed? && out.mem == StoreSlice(mem, a, c.regs[rt], 0, 4)
            && out.cpu.loadReg == 0 && out.cpu.regs[rs] == c.regs[rs]
  {
    StorePairOf(c, mem, rs, rt, offset, Right(SWR, rs, rt, offset), Left(SWL, rs, rt, offset));
  }

  lemma StorePairOf(c: CpuState, mem: seq<Byte>, rs: nat, rt: nat, offset: Word, right: Instruction, left: Instruction)
    requires rs < 32 && rt < 32 && Quiet(c, rs) && Quiet(c, rt) && Executable(right) && Executable(left)
    requires Reaches(mem, Wrap(c.regs[rs] + offset))
    requires right == Right(SWR, rs, rt, offset) && left == Left(SWL, rs, rt, offset)
    ensures var a, out := Wrap(c.regs[rs] + offset), RunPair(right, left, c, mem);
            && a + 4 <= |mem| && out.Completed? && out.mem == StoreSlice(mem, a, c.regs[rt], 0, 4)
            && out.cpu.loadReg == 0 && out.cpu.regs[rs] == c.regs[rs]
  {
    hide FlatExecute, Wrap, StoreSlice, Reaches, Handled, WellFormed;
    var a := Wrap(c.regs[rs] + offset);
    ReachesEnd(mem, a);
    StoreFirst(c, mem, rs, rt, offset);
    var one := FlatExecute(right, c, mem);
    StoreSecond(one.cpu, one.mem, rs, rt, offset);
    SlicesJoin(mem, a, c.regs[rt]);
  }

  lemma ReachesEnd(mem: seq<Byte>, a: Word)
    requires Reaches(mem, a)
    ensures a + 4 <= |mem|
  {
  }

  lemma StoreFirst(c: CpuState, mem: seq<Byte>, rs: nat, rt: nat, offset: Word)
    requires rs < 32 && rt < 32 && Quiet(c, rs) && Quiet(c, rt)
    requires Reaches(mem, Wrap(c.regs[rs] + offset))
    ensures var a := Wrap(c.regs[rs] + offset);
            var one := FlatExecute(Right(SWR, rs, rt, offset), c, mem);
            && a + 4 - a % 4 <= |mem|
            && one.Completed? && one.mem == StoreSlice(mem, a, c.regs[rt], 0, 4 - a % 4)
            && one.cpu.regs[rs] == c.regs[rs] && one.cpu.regs[rt] == c.regs[rt]
            && WellFormed(one.cpu) && Reaches(one.mem, a) && one.cpu.loadReg == 0
  {
    hide FlatExecute, Wrap, StoreSlice;
    ReachesWords(mem, Wrap(c.regs[rs] + offset));
    StoreStep(Right(SWR, rs, rt, offset), c, mem);
    FinishKeeps(c, 0, 0, NextAfter(c), rs);
    FinishKeeps(c, 0, 0, NextAfter(c), rt);
  }

  lemma StoreSecond(c: CpuState, mem: seq<Byte>, rs: nat, rt: nat, offset: Word)
    requires rs < 32 && rt < 32 && Reaches(mem, Wrap(c.regs[rs] + offset)) && Quiet(c, rs)
    ensures var a := Wrap(c.regs[rs] + offset) + 3;
            var two := FlatExecute(Left(SWL, rs, rt, offset), c, mem);
            && a - a % 4 + 4 <= |mem|
            && two.Completed? && two.mem == StoreSlice(mem, a - a % 4, c.regs[rt], 3 - a % 4, 4)
            && two.cpu.loadReg == 0 && two.cpu.regs[rs] == c.regs[rs]
  {
    hide FlatExecute, Wrap, StoreSlice;
    ReachesWords(mem, Wrap(c.regs[rs] + offset));
    LeftAddress(c.regs[rs], offset);
    StoreStep(Left(SWL, rs, rt, offset), c, mem);
    FinishKeeps(c, 0, 0, NextAfter(c), rs);
  }

  function LoadedWord(i: Instruction, c: Cpu, mem: seq<Byte>): Word
    requires i.rs < 32 && i.rt < 32
    requires var a := AddressOf(i, c.regs); a - a % 4 + 4 <= |mem|
  {
    var a := AddressOf(i, c.regs);
    LoadResult(i, c, WordAt(mem, a - a % 4))
  }

  lemma LoadEffect(i: Instruction, c: CpuState)
    requires (i.op == LWR || i.op == LWL) && i.rs < 32 && i.rt < 32 && i.rd < 32
    ensures var a := AddressOf(i, c.regs); EffectOf(i, c.regs, c.nextPc) == LoadFrom(a - a % 4, Four)
  {
  }

  lemma LoadStep(i: Instruction, c: CpuState, mem: seq<Byte>)
    requires (i.op == LWR || i.op == LWL) && i.rs < 32 && i.rt < 32 && i.rd < 32
    requires var a := AddressOf(i, c.regs); a - a % 4 + 4 <= |mem|
    ensures FlatExecute(i, c, mem) == Completed(Finish(c, c.regs, i.rt, LoadedWord(i, c, mem), NextAfter(c)), mem)
    ensures FlatExecute(i, c, mem).cpu.loadReg == i.rt && FlatExecute(i, c, mem).cpu.loadValue == LoadedWord(i, c, mem)
  {
    hide FlatRead, LoadResult, WordAt, AddressOf, EffectOf;
    var a := AddressOf(i, c.regs);
    LoadEffect(i, c);
    AlignedRead(mem, a - a % 4);
  }

  // The bytes LWR and LWL bring in; the others are kept.
  lemma LoadBytes(i: Instruction, c: CpuState, mem: seq<Byte>, b: nat)
    requires (i.op == LWR || i.op == LWL) && i.rs < 32 && i.rt < 32 && b < 4
    requires var a := AddressOf(i, c.regs); a - a % 4 + 4 <= |mem|
    ensures var a, kept := AddressOf(i, c.regs), if c.loadReg == i.rt then c.loadValue else c.regs[i.rt];
            var w := LoadedWord(i, c, mem);
            && (i.op == LWR ==> ByteOf(w, b) == if b < 4 - a % 4 then mem[a + b] else ByteOf(kept, b))
            && (i.op == LWL ==> ByteOf(w, b) == if b >= 3 - a % 4 then mem[a + b - 3] else ByteOf(kept, b))
  {
    hide ByteOf, LoadLeft, LoadRight, AddressOf, Join;
    var a, kept := AddressOf(i, c.regs), if c.loadReg == i.rt then c.loadValue else c.regs[i.rt];
    var v := WordAt(mem, a - a % 4);
    LoadRightByte(kept, v, a % 4, b);
    LoadLeftByte(kept, v, a % 4, b);
  }

  // An LWR at a or an LWL at a+3.
  predicate LoadsAt(i: Instruction, c: Cpu, mem: seq<Byte>, a: Word) {
    && i.rs < 32 && i.rt < 32 && Reaches(mem, a)
    && (i.op == LWR || i.op == LWL)
    && AddressOf(i, c.regs) == if i.op == LWR then a else a + 3
  }

  // The second load of a pair completes the word.
  lemma PairBytes(first: Instruction, second: Instruction, c: CpuState, one: CpuState, mem: seq<Byte>, a: Word)
    requires LoadsAt(first, c, mem, a) && LoadsAt(second, one, mem, a) && first.op != second.op
    requires second.rt == first.rt == one.loadReg
    requires AddressOf(first, c.regs) - AddressOf(first, c.regs) % 4 + 4 <= |mem|
    requires AddressOf(second, one.regs) - AddressOf(second, one.regs) % 4 + 4 <= |mem|
    requires one.loadValue == LoadedWord(first, c, mem)
    ensures LoadedWord(second, one, mem) == WordAt(mem, a)
  {
    hide AddressOf, LoadedWord, ByteOf, Join;
    Neighbours(a);
    forall b: nat | b < 4
      ensures ByteOf(LoadedWord(second, one, mem), b) == ByteOf(WordAt(mem, a), b)
    {
      LoadBytes(first, c, mem, b);
      LoadBytes(second, one, mem, b);
    }
    SameBytes(LoadedWord(second, one, mem), WordAt(mem, a));
  }

  lemma PairAddresses(c: CpuState, mem: seq<Byte>, rs: nat, rt: nat, offset: Word, i: Instruction)
    requires rs < 32 && rt < 32 && Reaches(mem, Wrap(c.regs[rs] + offset))
    requires i == Right(LWR, rs, rt, offset) || i == Left(LWL, rs, rt, offset)
    ensures LoadsAt(i, c, mem, Wrap(c.regs[rs] + offset))
    ensures AddressOf(i, c.regs) - AddressOf(i, c.regs) % 4 + 4 <= |mem|
  {
    hide Wrap;
    LeftAddress(c.regs[rs], offset);
    ReachesWords(mem, Wrap(c.regs[rs] + offset));
  }

  // LWR at a and LWL at a+3, in either order, bring the unaligned word at a
  // into a register other than r0 and the base register: the second one
  // merges with the value the first one has on its way.
  lemma LoadPair(c: CpuState, mem: seq<Byte>, rs: nat, rt: nat, offset: Word, first: Instruction, second: Instruction)
    requires rs < 32 && 0 < rt < 32 && rs != rt && Quiet(c, rs)
    requires Reaches(mem, Wrap(c.regs[rs] + offset))
    requires Executable(first) && Executable(second)
    requires var right, left := Right(LWR, rs, rt, offset), Left(LWL, rs, rt, offset);
             (first == right && second == left) || (first == left && second == right)
    ensures var a, out := Wrap(c.regs[rs] + offset), RunPair(first, second, c, mem);
            && a + 4 <= |mem|
            && out.Completed? && out.mem == mem
            && out.cpu.loadReg == rt && out.cpu.loadValue == WordAt(mem, a)
  {
    hide FlatExecute, Wrap, WordAt, LoadedWord, AddressOf, Reaches, LoadsAt, Finish, Quiet, Handled, WellFormed;
    ReachesEnd(mem, Wrap(c.regs[rs] + offset));
    var a := Wrap(c.regs[rs] + offset);
    PairAddresses(c, mem, rs, rt, offset, first);
    LoadFirst(c, mem, rs, rt, offset, first);
    var one := FlatExecute(first, c, mem).cpu;
    PairAddresses(one, mem, rs, rt, offset, second);
    LoadStep(second, one, mem);
    PairBytes(first, second, c, one, mem, a);
  }

  lemma LoadFirst(c: CpuState, mem: seq<Byte>, rs: nat, rt: nat, offset: Word, i: Instruction)
    requires rs < 32 && 0 < rt < 32 && rs != rt && Quiet(c, rs)
    requires Reaches(mem, Wrap(c.regs[rs] + offset))
    requires i == Right(LWR, rs, rt, offset) || i == Left(LWL, rs, rt, offset)
    requires AddressOf(i, c.regs) - AddressOf(i, c.regs) % 4 + 4 <= |mem|
    ensures var one := FlatExecute(i, c, mem);
            && one.Completed? && one.mem == mem && WellFormed(one.cpu)
            && one.cpu.regs[rs] == c.regs[rs]
            && one.cpu.loadReg == rt && one.cpu.loadValue == LoadedWord(i, c, mem)
  {
    hide FlatExecute, Wrap, WordAt, LoadedWord, AddressOf, Reaches, Finish, Quiet;
    LoadStep(i, c, mem);
    FinishKeeps(c, rt, LoadedWord(i, c, mem), NextAfter(c), rs);
  }

  // A page fault at the second load of a pair completes the first one early,
  // and the pair still brings in the word.
  lemma LoadPairThroughFault(c: CpuState, mem: seq<Byte>, rs: nat, rt: nat, offset: Word, first: Instruction,
                             second: Instruction)
    requires rs < 32 && 0 < rt < 32 && rs != rt && Quiet(c, rs)
    requires Reaches(mem, Wrap(c.regs[rs] + offset))
    requires Executable(first) && Executable(second)
    requires var right, left := Right(LWR, rs, rt, offset), Left(LWL, rs, rt, offset);
             (first == right && second == left) || (first == left && second == right)
    ensures FlatExecute(first, c, mem).Completed?
    ensures var out := FlatExecute(second, Commit(FlatExecute(first, c, mem).cpu), mem);
            && SameOutcome(RunPair(first, second, c, mem), out)
            && out.Completed? && out.mem == mem && out.cpu.loadReg == rt
            && Reaches(mem, Wrap(c.regs[rs] + offset)) && out.cpu.loadValue == WordAt(mem, Wrap(c.regs[rs] + offset))
  {
    hide FlatExecute, Wrap, WordAt, LoadedWord, AddressOf, LoadsAt, Finish, Quiet, Handled, WellFormed, Commit;
    LoadPair(c, mem, rs, rt, offset, first, second);
    PairAddresses(c, mem, rs, rt, offset, first);
    LoadFirst(c, mem, rs, rt, offset, first);
    UnnamedSame(second, FlatExecute(first, c, mem).cpu, mem);
  }

  // What SWR/SWL stored is what is there.
  lemma WordAtStored(mem: seq<Byte>, a: nat, t: Word)
    requires a + 4 <= |mem|
    ensures WordAt(StoreSlice(mem, a, t, 0, 4), a) == t
  {
    var w := WordAt(StoreSlice(mem, a, t, 0, 4), a);
    SameBytes(w, t);
  }

  // SWR, SWL, LWR, LWL: register rt to an unaligned address and from there to
  // register rd.
  function StoreAndLoad(c: CpuState, mem: seq<Byte>, rs: nat, rt: nat, rd: nat, offset: Word): Outcome<seq<Byte>>
    requires rs < 32 && rt < 32 && rd < 32
  {
    var stored := StoreBoth(c, mem, rs, rt, offset);
    if stored.Raised? then stored else LoadBoth(stored.cpu, stored.mem, rs, rd, offset)
  }

  function StoreBoth(c: CpuState, mem: seq<Byte>, rs: nat, rt: nat, offset: Word): Outcome<seq<Byte>>
    requires rs < 32 && rt < 32
  {
    RunPair(Right(SWR, rs, rt, offset), Left(SWL, rs, rt, offset), c, mem)
  }

  function LoadBoth(c: CpuState, mem: seq<Byte>, rs: nat, rt: nat, offset: Word): Outcome<seq<Byte>>
    requires rs < 32 && rt < 32
  {
    RunPair(Right(LWR, rs, rt, offset), Left(LWL, rs, rt, offset), c, mem)
  }

  // The round trip: register rt goes to any address and comes back to
  // register rd, where it is when the next instruction, whatever it is, is
  // over.
  lemma RoundTrip(c: CpuState, mem: seq<Byte>, rs: nat, rt: nat, rd: nat, offset: Word, next: Instruction)
    requires rs < 32 && rt < 32 && Quiet(c, rs) && Quiet(c, rt) && 0 < rd < 32 && rd != rs
    requires Reaches(mem, Wrap(c.regs[rs] + offset)) && Executable(next)
    ensures var loaded := StoreAndLoad(c, mem, rs, rt, rd, offset);
            loaded.Completed? && FlatExecute(next, loaded.cpu, loaded.mem).cpu.regs[rd] == c.regs[rt]
  {
    hide RunPair, FlatExecute, Wrap, WordAt, StoreSlice, Quiet, FollowsOn;
    var a := Wrap(c.regs[rs] + offset);
    StorePair(c, mem, rs, rt, offset);
    var stored := RunPair(Right(SWR, rs, rt, offset), Left(SWL, rs, rt, offset), c, mem);
    QuietNow(stored.cpu, rs);
    LoadPair(stored.cpu, stored.mem, rs, rd, offset, Right(LWR, rs, rd, offset), Left(LWL, rs, rd, offset));
    WordAtStored(mem, a, c.regs[rt]);
    var loaded := RunPair(Right(LWR, rs, rd, offset), Left(LWL, rs, rd, offset), stored.cpu, stored.mem);
    ExecuteFollows(next, loaded.cpu, loaded.mem);
    LandsIn(loaded.cpu, FlatExecute(next, loaded.cpu, loaded.mem), loaded.mem);
  }

  lemma QuietNow(c: CpuState, r: nat)
    requires c.loadReg == 0
    ensures Quiet(c, r)
  {
  }

  lemma LandsIn(c: CpuState, out: Outcome<seq<Byte>>, mem: seq<Byte>)
    requires FollowsOn(c, out, mem) && c.loadReg != 0
    ensures out.cpu.regs[c.loadReg] == c.loadValue
  {
  }
}
