// What every instruction does, said in numbers and bits: the value it
// computes, where the value goes, where execution goes on, and what it does to
// the memory.
module Instructions {
  import opened Words
  import opened Memory
  import opened Mips
  import opened Steps
  import opened Encoding
  import opened ByteOrder
  import opened Bits
  import opened Shifts
  import Division
  import Multiply
  import Unaligned

  // The same number modulo 2^32.
  predicate Same(x: int, y: int) { (x - y) % 0x1_0000_0000 == 0 }

  // The signed reading of a word is the number from -2^31 up to 2^31 that it is
  // modulo 2^32.
  lemma SignedReads(w: Word)
    ensures Same(Signed(w), w) && -0x8000_0000 <= Signed(w) < 0x8000_0000
  {
  }

  // ------------------------------------------------- how instructions end

  // An instruction that completes writes some registers.  A pending load lands
  // over them, and register 0 stays zero.  Execution goes on at "after", one
  // instruction late.
  ghost predicate Retires(c: CpuState, out: Outcome<seq<Byte>>, writes: map<nat, Word>,
                          loadReg: nat, loadValue: Word, after: int) {
    && out.Completed?
    && (forall r :: 0 <= r < 34 ==>
          out.cpu.regs[r] ==
          if r == 0 then 0
          else if r == c.loadReg then c.loadValue
          else if r in writes then writes[r]
          else c.regs[r])
    && out.cpu.pc == c.nextPc && out.cpu.prevPc == c.pc && out.cpu.nextPc == after % 0x1_0000_0000
    && out.cpu.loadReg == loadReg && out.cpu.loadValue == loadValue && out.cpu.badVAddr == c.badVAddr
  }

  // One that computes a value.
  ghost predicate Sets(c: CpuState, mem: seq<Byte>, out: Outcome<seq<Byte>>, r: nat, v: Word) {
    Retires(c, out, map[r := v], 0, 0, c.nextPc + 4) && out.mem == mem
  }

  // An exception leaves the memory and the program counters as they were; the
  // pending load lands.
  ghost predicate Traps(c: CpuState, mem: seq<Byte>, out: Outcome<seq<Byte>>, exc: Exception, bad: Word) {
    && out.Raised? && out.exc == exc && out.mem == mem
    && (forall r :: 0 <= r < 34 ==>
          out.cpu.regs[r] == if r == 0 then 0 else if r == c.loadReg then c.loadValue else c.regs[r])
    && out.cpu.pc == c.pc && out.cpu.nextPc == c.nextPc && out.cpu.prevPc == c.prevPc
    && out.cpu.loadReg == 0 && out.cpu.loadValue == 0 && out.cpu.badVAddr == bad
  }

  lemma FinishRetires(c: CpuState, mem': seq<Byte>, regs: Regs, writes: map<nat, Word>,
                      loadReg: nat, v: Word, after: int)
    requires forall r: nat :: r < 34 ==> regs[r] == if r in writes then writes[r] else c.regs[r]
    requires loadReg < 32
    ensures Retires(c, Completed(Finish(c, regs, loadReg, v, Wrap(after)), mem'), writes, loadReg, v, after)
  {
  }

  lemma TrappedTraps(c: CpuState, mem: seq<Byte>, exc: Exception, bad: Word)
    ensures Traps(c, mem, Raised(exc, Trapped(c, bad), mem), exc, bad)
  {
  }

  // ------------------------------------------------------ computed values

  predicate InSigned(x: int) { -0x8000_0000 <= x < 0x8000_0000 }

  // Whether the exact result of a trapping addition or subtraction fits.
  predicate Fitting(op: Op, s: Word, t: Word, x: Word) {
    match op
    case ADD => InSigned(Signed(s) + Signed(t))
    case ADDI => InSigned(Signed(s) + Signed(x))
    case SUB => InSigned(Signed(s) - Signed(t))
    case _ => true
  }

  ghost predicate EachBit(v: Word, bit: nat -> bool) { forall k: nat :: k < 32 ==> (BitOf(v, k) <==> bit(k)) }

  // The bits of t moved n places up or down; those that come in are zeros from
  // below and copies of the sign from above.
  ghost predicate MovedUp(v: Word, t: Word, n: nat) { EachBit(v, (k: nat) => k >= n && BitOf(t, k - n)) }

  ghost predicate MovedDown(v: Word, t: Word, n: nat) {
    EachBit(v, (k: nat) => BitOf(t, if k + n < 32 then k + n else 31))
  }

  // v is what an operation computes from two registers and the immediate field.
  // The right shifts called logical copy the sign, as the code does.
  ghost predicate Computes(op: Op, s: Word, t: Word, x: Word, v: Word) {
    match op
    case ADD => Signed(v) == Signed(s) + Signed(t)
    case ADDI => Signed(v) == Signed(s) + Signed(x)
    case SUB => Signed(v) == Signed(s) - Signed(t)
    case ADDU => Same(v, s + t)
    case ADDIU => Same(v, s + x)
    case SUBU => Same(v + t, s)
    case AND => EachBit(v, (k: nat) => BitOf(s, k) && BitOf(t, k))
    case OR => EachBit(v, (k: nat) => BitOf(s, k) || BitOf(t, k))
    case XOR => EachBit(v, (k: nat) => BitOf(s, k) != BitOf(t, k))
    case NOR => EachBit(v, (k: nat) => !BitOf(s, k) && !BitOf(t, k))
    case ANDI => EachBit(v, (k: nat) => k < 16 && BitOf(s, k) && BitOf(x, k))
    case ORI => EachBit(v, (k: nat) => BitOf(s, k) || (k < 16 && BitOf(x, k)))
    case XORI => EachBit(v, (k: nat) => BitOf(s, k) != (k < 16 && BitOf(x, k)))
    case LUI => MovedUp(v, x % 0x1_0000, 16)
    case SLL => MovedUp(v, t, x)
    case SLLV => MovedUp(v, t, s % 32)
    case SRL => MovedDown(v, t, x)
    case SRLV => MovedDown(v, t, s % 32)
    case SRA => MovedDown(v, t, x)
    case SRAV => MovedDown(v, t, s % 32)
    case SLT => v == if Signed(s) - Signed(t) < 0 then 1 else 0
    case SLTI => v == if Signed(s) - Signed(x) < 0 then 1 else 0
    case SLTU => v == if s - t < 0 then 1 else 0
    case SLTIU => v == if s - x < 0 then 1 else 0
    case _ => false
  }

  // A shift amount is below 32, as decoding leaves it.
  predicate AmountFits(op: Op, x: Word) { op in {SLL, SRL, SRA} ==> x < 32 }

  predicate Arithmetic(op: Op) {
    op in {ADD, ADDI, ADDIU, ADDU, SUB, SUBU, AND, ANDI, OR, ORI, XOR, XORI, NOR, LUI, SLL, SLLV, SRA, SRAV, SRL, SRLV,
           SLT, SLTI, SLTU, SLTIU}
  }

  lemma SumsExact(op: Op, s: Word, t: Word, x: Word)
    ensures Overflows(op, s, t, x) <==> !Fitting(op, s, t, x)
    ensures op in {ADD, ADDI, SUB} && Fitting(op, s, t, x) ==> Computes(op, s, t, x, AluValue(op, s, t, x))
  {
    hide AddOverflows, SubOverflows, Signed, Wrap;
    AddOverflowExact(s, t);
    AddOverflowExact(x, s);
    SubOverflowExact(s, t);
  }

  lemma WrappedSums(op: Op, s: Word, t: Word, x: Word)
    requires op in {ADDU, ADDIU, SUBU}
    ensures Computes(op, s, t, x, AluValue(op, s, t, x))
  {
  }

  lemma LogicExact(op: Op, s: Word, t: Word, x: Word)
    requires op in {AND, ANDI, OR, ORI, XOR, XORI, NOR}
    ensures Computes(op, s, t, x, AluValue(op, s, t, x))
  {
    hide BitOf, And, Or, Xor, Not;
    forall k: nat | k < 32
      ensures BitOf(And(s, t), k) <==> BitOf(s, k) && BitOf(t, k)
      ensures BitOf(Or(s, t), k) <==> BitOf(s, k) || BitOf(t, k)
      ensures BitOf(Xor(s, t), k) <==> BitOf(s, k) != BitOf(t, k)
      ensures BitOf(Not(Or(s, t)), k) <==> !BitOf(s, k) && !BitOf(t, k)
      ensures BitOf(And(s, x % 0x1_0000), k) <==> k < 16 && BitOf(s, k) && BitOf(x, k)
      ensures BitOf(Or(s, x % 0x1_0000), k) <==> BitOf(s, k) || (k < 16 && BitOf(x, k))
      ensures BitOf(Xor(s, x % 0x1_0000), k) <==> BitOf(s, k) != (k < 16 && BitOf(x, k))
    {
      LogicBit(s, t, k);
      LogicBit(s, x % 0x1_0000, k);
      HalfBit(x, k);
    }
  }

  lemma LogicBit(s: Word, t: Word, k: nat)
    requires k < 32
    ensures BitOf(And(s, t), k) <==> BitOf(s, k) && BitOf(t, k)
    ensures BitOf(Or(s, t), k) <==> BitOf(s, k) || BitOf(t, k)
    ensures BitOf(Xor(s, t), k) <==> BitOf(s, k) != BitOf(t, k)
    ensures BitOf(Not(Or(s, t)), k) <==> !BitOf(s, k) && !BitOf(t, k)
  {
    hide *;
    AndBit(s, t, k);
    OrBit(s, t, k);
    XorBit(s, t, k);
    NotBit(Or(s, t), k);
  }

  lemma HalfBit(x: Word, k: nat)
    ensures BitOf(x % 0x1_0000, k) <==> k < 16 && BitOf(x, k)
  {
    hide BitOf;
    assert Pow2(16) == 0x1_0000 by { assert Pow2(8) == 0x100; PowAdd(8, 8); }
    LowBits(x, 16, k);
  }

  lemma UpExact(t: Word, n: nat)
    ensures MovedUp(ShiftLeft(t, n), t, n)
  {
    hide BitOf, ShiftLeft;
    forall k: nat | k < 32
      ensures BitOf(ShiftLeft(t, n), k) <==> k >= n && BitOf(t, k - n)
    {
      ShiftLeftBit(t, n, k);
    }
  }

  lemma DownExact(t: Word, n: nat)
    requires n < 32
    ensures MovedDown(ShiftRight(t, n), t, n)
  {
    hide BitOf, ShiftRight;
    forall k: nat | k < 32
      ensures BitOf(ShiftRight(t, n), k) <==> BitOf(t, if k + n < 32 then k + n else 31)
    {
      ShiftRightBit(t, n, k);
    }
  }

  lemma UpperHalf(x: Word)
    ensures MovedUp(ShiftLeft(x, 16), x % 0x1_0000, 16)
  {
    hide BitOf, ShiftLeft;
    forall k: nat | k < 32
      ensures BitOf(ShiftLeft(x, 16), k) <==> k >= 16 && BitOf(x % 0x1_0000, k - 16)
    {
      ShiftLeftBit(x, 16, k);
      if k >= 16 {
        HalfBit(x, k - 16);
      }
    }
  }

  lemma ShiftsExact(op: Op, s: Word, t: Word, x: Word)
    requires op in {LUI, SLL, SLLV, SRA, SRAV, SRL, SRLV} && AmountFits(op, x)
    ensures Computes(op, s, t, x, AluValue(op, s, t, x))
  {
    hide MovedUp, MovedDown, ShiftLeft, ShiftRight;
    UpExact(t, x);
    UpExact(t, s % 32);
    UpperHalf(x);
    DownExact(t, s % 32);
    if x < 32 {
      DownExact(t, x);
    }
  }

  // Additions and subtractions that trap do so exactly when the result does
  // not fit; every other operation computes what it is to compute.
  lemma ComputesExact(op: Op, s: Word, t: Word, x: Word)
    requires Arithmetic(op) && AmountFits(op, x)
    ensures Overflows(op, s, t, x) <==> !Fitting(op, s, t, x)
    ensures Fitting(op, s, t, x) ==> Computes(op, s, t, x, AluValue(op, s, t, x))
  {
    hide MovedUp, MovedDown, EachBit, ShiftLeft, ShiftRight, And, Or, Xor, Overflows, Fitting, Not;
    SumsExact(op, s, t, x);
    if op in {ADDU, ADDIU, SUBU} {
      WrappedSums(op, s, t, x);
    } else if op in {AND, ANDI, OR, ORI, XOR, XORI, NOR} {
      LogicExact(op, s, t, x);
    } else if op in {LUI, SLL, SLLV, SRA, SRAV, SRL, SRLV} {
      ShiftsExact(op, s, t, x);
    }
  }

  // ------------------------------------- multiplication, division and moves

  predicate Pairing(op: Op) { op in {MULT, MULTU, DIV, DIVU} }

  // What multiplication and division leave in HI and LO.
  ghost predicate Pairs(op: Op, s: Word, t: Word, hi: Word, lo: Word) {
    match op
    case MULT => Signed(hi) * 0x1_0000_0000 + lo == Signed(s) * Signed(t)
    case MULTU => hi * 0x1_0000_0000 + lo == s * t
    case DIV =>
      if t == 0 then hi == lo == 0
      else if Signed(s) == -0x8000_0000 && Signed(t) == -1 then Signed(lo) == -0x8000_0000 && hi == 0
      else
        && Signed(s) == Signed(lo) * Signed(t) + Signed(hi) && Abs(Signed(hi)) < Abs(Signed(t))
        && (Signed(hi) == 0 || (Signed(hi) < 0) == (Signed(s) < 0))
    case DIVU => if t == 0 then hi == lo == 0 else s == lo * t + hi && hi < t
    case _ => false
  }

  lemma ProductBound(x: int, y: int)
    requires -0x8000_0000 <= x < 0x8000_0000 && -0x8000_0000 <= y < 0x8000_0000
    ensures -0x4000_0000_0000_0000 <= x * y <= 0x4000_0000_0000_0000
  {
    Multiply.MulMono(Abs(x), 0x8000_0000, Abs(y));
    assert Abs(x) * Abs(y) == Abs(x * y);
  }

  lemma SignedHalves(p: int)
    requires -0x4000_0000_0000_0000 <= p <= 0x4000_0000_0000_0000
    ensures Signed(Multiply.HighWord(p)) * 0x1_0000_0000 + Multiply.LowWord(p) == p
  {
  }

  lemma UnsignedBound(x: Word, y: Word)
    ensures 0 <= x * y < 0x1_0000_0000_0000_0000
  {
    Multiply.MulMono(x, 0xffff_ffff, y);
  }

  lemma UnsignedHalves(p: int)
    requires 0 <= p < 0x1_0000_0000_0000_0000
    ensures Multiply.HighWord(p) * 0x1_0000_0000 + Multiply.LowWord(p) == p
  {
  }

  lemma PairsExact(op: Op, s: Word, t: Word)
    requires op in {MULT, MULTU, DIV, DIVU}
    ensures var p := HiLoPair(op, s, t); Pairs(op, s, t, p.0, p.1)
  {
    hide Signed, Multiply.HighWord, Multiply.LowWord, Quotient, Remainder, Wrap;
    if op == MULT {
      SignedReads(s);
      SignedReads(t);
      ProductBound(Signed(s), Signed(t));
      SignedHalves(Signed(s) * Signed(t));
    } else if op == MULTU {
      UnsignedBound(s, t);
      UnsignedHalves(s * t);
    } else if t != 0 {
      Division.DivisionExact(s, t);
    }
  }

  // ------------------------------------------------- branches and jumps

  // The register that gets the return address, if any.
  predicate LinksIn(i: Instruction, r: nat) {
    match i.op
    case BGEZAL => r == 31
    case BLTZAL => r == 31
    case JAL => r == 31
    case JALR => r == i.rd
    case _ => false
  }

  // Where execution goes on after the instruction that follows, given the
  // two registers.
  predicate GoesTo(op: Op, s: Word, t: Word, x: Word, nextPc: Word, to: Word) {
    match op
    case BEQ => if s == t then Same(to, nextPc + 4 * x) else Same(to, nextPc + 4)
    case BNE => if s != t then Same(to, nextPc + 4 * x) else Same(to, nextPc + 4)
    case BLEZ => if Signed(s) <= 0 then Same(to, nextPc + 4 * x) else Same(to, nextPc + 4)
    case BGTZ => if Signed(s) > 0 then Same(to, nextPc + 4 * x) else Same(to, nextPc + 4)
    case BLTZ => if Signed(s) < 0 then Same(to, nextPc + 4 * x) else Same(to, nextPc + 4)
    case BLTZAL => if Signed(s) < 0 then Same(to, nextPc + 4 * x) else Same(to, nextPc + 4)
    case BGEZ => if Signed(s) >= 0 then Same(to, nextPc + 4 * x) else Same(to, nextPc + 4)
    case BGEZAL => if Signed(s) >= 0 then Same(to, nextPc + 4 * x) else Same(to, nextPc + 4)
    case J => to == (nextPc + 4) % 0x1_0000_0000 / 0x1000_0000 * 0x1000_0000 + 4 * x
    case JAL => to == (nextPc + 4) % 0x1_0000_0000 / 0x1000_0000 * 0x1000_0000 + 4 * x
    case JR => to == s
    case JALR => to == s
    case _ => false
  }

  predicate Branches(op: Op) {
    op in {BEQ, BNE, BLEZ, BGTZ, BLTZ, BLTZAL, BGEZ, BGEZAL, J, JAL, JR, JALR}
  }

  lemma JumpExact(x: Word, after: Word)
    requires x < 0x400_0000
    ensures Or(And(after, 0xf000_0000), ShiftLeft(x, 2)) == after / 0x1000_0000 * 0x1000_0000 + 4 * x
  {
    hide And, Or;
    assert Pow2(2) == 4;
    TopField(after, ShiftLeft(x, 2));
  }

  lemma FourTimes(x: Word, nextPc: Word)
    ensures Same(Wrap(nextPc + ShiftLeft(x, 2)), nextPc + 4 * x) && Same(Wrap(nextPc + 4), nextPc + 4)
  {
    assert Pow2(2) == 4;
  }

  lemma TargetExact(op: Op, s: Word, t: Word, x: Word, nextPc: Word)
    requires Branches(op) && (op == J || op == JAL ==> x < 0x400_0000)
    ensures GoesTo(op, s, t, x, nextPc, BranchTarget(op, s, t, x, nextPc))
  {
    hide And, Or, ShiftLeft, Same;
    FourTimes(x, nextPc);
    if op == J || op == JAL {
      JumpExact(x, Wrap(nextPc + 4));
    }
  }

  // ------------------------------------------------------ loads and stores

  predicate Loads(op: Op) { op in {LB, LBU, LH, LHU, LW, LWL, LWR} }

  predicate Stores(op: Op) { op in {SB, SH, SW, SWL, SWR} }

  // The bytes accessed for the address a: their number, and the first one.
  function Width(op: Op): (n: nat)
    ensures n > 0
  {
    if op in {LB, LBU, SB} then 1 else if op in {LH, LHU, SH} then 2 else 4
  }

  function SizeOf(op: Op): (size: Size)
    ensures size.Bytes() == Width(op)
  {
    if Width(op) == 1 then One else if Width(op) == 2 then Two else Four
  }

  function Start(op: Op, a: Word): Word { if op in {LWL, LWR, SWL, SWR} then a - a % 4 else a }

  // What a load from address a brings into a register that holds "kept".
  ghost predicate Brings(op: Op, mem: seq<Byte>, a: Word, kept: Word, v: Word)
    requires Start(op, a) + Width(op) <= |mem|
  {
    match op
    case LB => Signed(v) == if mem[a] < 0x80 then mem[a] as int else mem[a] as int - 0x100
    case LBU => v == mem[a]
    case LH =>
      var n := Number(mem[a..a + 2]);
      Signed(v) == if n < 0x8000 then n else n - 0x1_0000
    case LHU => v == Number(mem[a..a + 2])
    case LW => v == Number(mem[a..a + 4])
    case LWL => forall j: nat :: j < 4 ==>
      ByteOf(v, j) == if j + a % 4 >= 3 then mem[a - (3 - j)] else ByteOf(kept, j)
    case LWR => forall j: nat :: j < 4 ==>
      ByteOf(v, j) == if j + a % 4 < 4 then mem[a + j] else ByteOf(kept, j)
    case _ => false
  }

  // What a store of t at address a makes of the memory.
  ghost predicate Leaves(op: Op, mem: seq<Byte>, a: Word, t: Word, mem': seq<Byte>)
    requires Start(op, a) + Width(op) <= |mem|
  {
    && |mem'| == |mem|
    && match op
       case SB => Number(mem'[a..a + 1]) == t % 0x100 && Elsewhere(mem, mem', a, a + 1)
       case SH => Number(mem'[a..a + 2]) == t % 0x1_0000 && Elsewhere(mem, mem', a, a + 2)
       case SW => Number(mem'[a..a + 4]) == t && Elsewhere(mem, mem', a, a + 4)
       case SWL => (forall j :: a - a % 4 <= j <= a ==> mem'[j] == ByteOf(t, 3 - (a - j)))
                   && Elsewhere(mem, mem', a - a % 4, a + 1)
       case SWR => (forall j :: a <= j < a - a % 4 + 4 ==> mem'[j] == ByteOf(t, j - a))
                   && Elsewhere(mem, mem', a, a - a % 4 + 4)
       case _ => false
  }

  // Outside of this range nothing has changed.
  ghost predicate Elsewhere(mem: seq<Byte>, mem': seq<Byte>, from: int, to: int)
    requires |mem'| == |mem|
  {
    forall j :: 0 <= j < |mem| && !(from <= j < to) ==> mem'[j] == mem[j]
  }

  // What becomes of the number n that the bytes make.
  lemma ShortResult(i: Instruction, c: CpuState, w: Word, n: nat)
    requires i.op in {LB, LBU, LH, LHU, LW} && i.rs < 32 && i.rt < 32
    requires i.op in {LB, LBU} ==> n < 0x100 && w == if n >= 0x80 then n + 0xffff_ff00 else n
    requires i.op in {LH, LHU} ==> n < 0x1_0000
    requires i.op in {LH, LHU, LW} ==> w == n
    ensures i.op == LB ==> Signed(LoadResult(i, c, w)) == if n < 0x80 then n else n - 0x100
    ensures i.op == LH ==> Signed(LoadResult(i, c, w)) == if n < 0x8000 then n else n - 0x1_0000
    ensures i.op in {LBU, LHU, LW} ==> LoadResult(i, c, w) == n
  {
    hide AddressOf, LoadLeft, LoadRight;
  }

  lemma ShortLoadExact(op: Op, mem: seq<Byte>, a: Word, kept: Word, i: Instruction, c: CpuState)
    requires op in {LB, LBU, LH, LHU, LW} && i.op == op && i.rs < 32 && i.rt < 32
    requires Fits(mem, a, Width(op))
    ensures var size := SizeOf(op);
            && FlatRead(mem, a, size).Value?
            && Brings(op, mem, a, kept, LoadResult(i, c, FlatRead(mem, a, size).word))
  {
    hide FlatFails, LoadedValue, Number, AddressOf, LoadResult, Signed, Fits;
    var n := Width(op);
    ReadExact(mem, a, SizeOf(op));
    Numbers(mem[a..a + n]);
    ShortResult(i, c, FlatRead(mem, a, SizeOf(op)).word, Number(mem[a..a + n]));
  }

  // The word a partial load or store takes part of.
  lemma PartialRead(mem: seq<Byte>, a: Word)
    requires Fits(mem, a - a % 4, 4)
    ensures FlatRead(mem, a - a % 4, Four) == Value(Unaligned.WordAt(mem, a - a % 4))
  {
    Unaligned.AlignedRead(mem, a - a % 4);
  }

  lemma LeftBrings(mem: seq<Byte>, a: Word, kept: Word)
    requires a - a % 4 + 4 <= |mem|
    ensures Brings(LWL, mem, a, kept, LoadLeft(kept, Unaligned.WordAt(mem, a - a % 4), a % 4))
  {
    hide ByteOf, LoadLeft;
    var v := Unaligned.WordAt(mem, a - a % 4);
    forall j: nat | j < 4
      ensures ByteOf(LoadLeft(kept, v, a % 4), j) == if j + a % 4 >= 3 then mem[a - (3 - j)] else ByteOf(kept, j)
    {
      Unaligned.LoadLeftByte(kept, v, a % 4, j);
    }
  }

  lemma RightBrings(mem: seq<Byte>, a: Word, kept: Word)
    requires a - a % 4 + 4 <= |mem|
    ensures Brings(LWR, mem, a, kept, LoadRight(kept, Unaligned.WordAt(mem, a - a % 4), a % 4))
  {
    hide ByteOf, LoadRight;
    var v := Unaligned.WordAt(mem, a - a % 4);
    forall j: nat | j < 4
      ensures ByteOf(LoadRight(kept, v, a % 4), j) == if j + a % 4 < 4 then mem[a + j] else ByteOf(kept, j)
    {
      Unaligned.LoadRightByte(kept, v, a % 4, j);
    }
  }

  lemma PartialLoadExact(i: Instruction, mem: seq<Byte>, c: CpuState)
    requires i.op in {LWL, LWR} && i.rs < 32 && i.rt < 32
    requires Fits(mem, AddressOf(i, c.regs) - AddressOf(i, c.regs) % 4, 4)
    ensures var a := AddressOf(i, c.regs);
            var kept := if c.loadReg == i.rt then c.loadValue else c.regs[i.rt];
            Brings(i.op, mem, a, kept, LoadResult(i, c, Unaligned.WordAt(mem, a - a % 4)))
  {
    hide Brings, ByteOf, LoadLeft, LoadRight, AddressOf;
    var kept := if c.loadReg == i.rt then c.loadValue else c.regs[i.rt];
    LeftBrings(mem, AddressOf(i, c.regs), kept);
    RightBrings(mem, AddressOf(i, c.regs), kept);
  }

  lemma ShortStoreExact(op: Op, mem: seq<Byte>, a: Word, t: Word)
    requires op in {SB, SH, SW} && Fits(mem, a, Width(op))
    ensures var size := SizeOf(op);
            && FlatWrite(mem, a, size, t).Written?
            && Leaves(op, mem, a, t, FlatWrite(mem, a, size, t).mem)
  {
    hide FlatFails, FlatWrite, Number;
    WriteExact(mem, a, SizeOf(op), t);
  }

  lemma PartialStoreExact(i: Instruction, mem: seq<Byte>, r: Regs)
    requires i.op in {SWL, SWR} && i.rs < 32 && i.rt < 32
    requires Fits(mem, Start(i.op, AddressOf(i, r)), Width(i.op))
    ensures var at := Start(i.op, AddressOf(i, r));
            && FlatRead(mem, at, Four).Value?
            && var written := FlatWrite(mem, at, Four, MergeResult(i, r, FlatRead(mem, at, Four).word));
               written.Written? && Leaves(i.op, mem, AddressOf(i, r), r[i.rt], written.mem)
  {
    hide StoreLeft, StoreRight, AddressOf, FlatRead, FlatWrite, Number, Leaves, ByteOf, Unaligned.StoreSlice,
      Unaligned.WordAt;
    var a := AddressOf(i, r);
    PartialRead(mem, a);
    if i.op == SWL {
      Unaligned.StoreLeftExact(mem, a, r[i.rt]);
      LeftLeaves(mem, a, r[i.rt]);
    } else {
      Unaligned.StoreRightExact(mem, a, r[i.rt]);
      RightLeaves(mem, a, r[i.rt]);
    }
  }

  lemma LeftLeaves(mem: seq<Byte>, a: Word, t: Word)
    requires a - a % 4 + 4 <= |mem|
    ensures Leaves(SWL, mem, a, t, Unaligned.StoreSlice(mem, a - a % 4, t, 3 - a % 4, 4))
  {
    hide ByteOf, Number, Unaligned.StoreSlice;
  }

  lemma RightLeaves(mem: seq<Byte>, a: Word, t: Word)
    requires a - a % 4 + 4 <= |mem|
    ensures Leaves(SWR, mem, a, t, Unaligned.StoreSlice(mem, a, t, 0, 4 - a % 4))
  {
    hide ByteOf, Number, Unaligned.StoreSlice;
  }

  // ------------------------------------------------ the whole instruction

  // The register an arithmetic instruction sets.
  function Target(i: Instruction): nat {
    if i.op in {ADDI, ADDIU, ANDI, ORI, XORI, LUI, SLTI, SLTIU} then i.rt else i.rd
  }

  ghost predicate ArithmeticDone(i: Instruction, c: CpuState, mem: seq<Byte>, out: Outcome<seq<Byte>>, v: Word)
    requires i.rs < 32 && i.rt < 32
  {
    var s, t := c.regs[i.rs], c.regs[i.rt];
    if Fitting(i.op, s, t, i.extra) then Computes(i.op, s, t, i.extra, v) && Sets(c, mem, out, Target(i), v)
    else Traps(c, mem, out, OverflowException, 0)
  }

  // The link register is written before the registers are read.
  ghost predicate BranchDone(i: Instruction, c: CpuState, mem: seq<Byte>, out: Outcome<seq<Byte>>, to: Word)
    requires i.rs < 32 && i.rt < 32
  {
    var link := (c.nextPc + 4) % 0x1_0000_0000;
    var s := if LinksIn(i, i.rs) then link else c.regs[i.rs];
    var t := if LinksIn(i, i.rt) then link else c.regs[i.rt];
    && GoesTo(i.op, s, t, i.extra, c.nextPc, to)
    && Retires(c, out, map r: nat | r < 32 && LinksIn(i, r) :: link, 0, 0, to) && out.mem == mem
  }

  ghost predicate LoadDone(i: Instruction, c: CpuState, mem: seq<Byte>, out: Outcome<seq<Byte>>, v: Word)
    requires i.rs < 32 && i.rt < 32
  {
    var a := (c.regs[i.rs] + i.extra) % 0x1_0000_0000;
    var kept := if c.loadReg == i.rt then c.loadValue else c.regs[i.rt];
    if Fits(mem, Start(i.op, a), Width(i.op)) then
      Brings(i.op, mem, a, kept, v) && Retires(c, out, map[], i.rt, v, c.nextPc + 4) && out.mem == mem
    else Traps(c, mem, out, AddressErrorException, Start(i.op, a))
  }

  ghost predicate StoreDone(i: Instruction, c: CpuState, mem: seq<Byte>, out: Outcome<seq<Byte>>)
    requires i.rs < 32 && i.rt < 32
  {
    var a := (c.regs[i.rs] + i.extra) % 0x1_0000_0000;
    if Fits(mem, Start(i.op, a), Width(i.op)) then
      Leaves(i.op, mem, a, c.regs[i.rt], out.mem) && Retires(c, out, map[], 0, 0, c.nextPc + 4)
    else Traps(c, mem, out, AddressErrorException, Start(i.op, a))
  }

  ghost predicate PairDone(i: Instruction, c: CpuState, mem: seq<Byte>, out: Outcome<seq<Byte>>)
    requires i.rs < 32 && i.rt < 32
  {
    var hi, lo := out.cpu.regs[32], out.cpu.regs[33];
    && Pairs(i.op, c.regs[i.rs], c.regs[i.rt], hi, lo)
    && Retires(c, out, map[32 := hi, 33 := lo], 0, 0, c.nextPc + 4) && out.mem == mem
  }

  predicate Moves(op: Op) { op in {MFHI, MFLO, MTHI, MTLO} }

  ghost predicate MoveDone(i: Instruction, c: CpuState, mem: seq<Byte>, out: Outcome<seq<Byte>>)
    requires i.rs < 32
  {
    match i.op
    case MFHI => Sets(c, mem, out, i.rd, c.regs[32])
    case MFLO => Sets(c, mem, out, i.rd, c.regs[33])
    case MTHI => Sets(c, mem, out, 32, c.regs[i.rs])
    case MTLO => Sets(c, mem, out, 33, c.regs[i.rs])
    case _ => false
  }

  // How an instruction ends; v is the value it computes or brings, or where it
  // goes.
  ghost predicate Behaves(i: Instruction, c: CpuState, mem: seq<Byte>, out: Outcome<seq<Byte>>, v: Word)
    requires i.rs < 32 && i.rt < 32
  {
    if Arithmetic(i.op) then ArithmeticDone(i, c, mem, out, v)
    else if Branches(i.op) then BranchDone(i, c, mem, out, v)
    else if Loads(i.op) then LoadDone(i, c, mem, out, v)
    else if Stores(i.op) then StoreDone(i, c, mem, out)
    else if Moves(i.op) then MoveDone(i, c, mem, out)
    else if Pairing(i.op) then PairDone(i, c, mem, out)
    else Traps(c, mem, out, SyscallException, 0)
  }

  // What decoding leaves: register numbers, and fields of their width.
  predicate Decodable(i: Instruction) {
    && i.rs < 32 && i.rt < 32 && i.rd < 32
    && AmountFits(i.op, i.extra) && (i.op == J || i.op == JAL ==> i.extra < 0x400_0000)
    && i.op !in {UNIMP, RES, RFE, SPECIAL, BCOND}
  }

  // The kinds of operations are those of the model.
  lemma Kinds(op: Op)
    ensures Arithmetic(op) || Branches(op) || Loads(op) || Stores(op) ==> !IsTrap(op) && !IsHiLo(op)
    ensures Arithmetic(op) || Branches(op) ==> !IsMemory(op)
    ensures Arithmetic(op) ==> !IsBranch(op)
    ensures Loads(op) || Stores(op) ==> IsMemory(op)
    ensures Branches(op) ==> IsBranch(op)
    ensures Moves(op) || Pairing(op) ==> !IsTrap(op) && !IsMemory(op) && !IsBranch(op) && IsHiLo(op)
  {
  }

  lemma Destination(i: Instruction)
    requires Arithmetic(i.op)
    ensures Target(i) == if IsImmediate(i.op) then i.rt else i.rd
  {
  }

  lemma ArithmeticEffect(i: Instruction, c: CpuState)
    requires Decodable(i) && Arithmetic(i.op)
    ensures EffectOf(i, c.regs, c.nextPc) ==
            if Overflows(i.op, c.regs[i.rs], c.regs[i.rt], i.extra) then Trap(OverflowException, 0)
            else Done(c.regs[Target(i) := AluValue(i.op, c.regs[i.rs], c.regs[i.rt], i.extra)], Wrap(c.nextPc + 4))
  {
    hide Overflows, AluValue, Wrap, IsTrap, IsHiLo, IsMemory, IsBranch, IsImmediate, Target;
    Kinds(i.op);
    Destination(i);
  }

  lemma ArithmeticExact(i: Instruction, c: CpuState, mem: seq<Byte>)
    requires Decodable(i) && Arithmetic(i.op)
    ensures ArithmeticDone(i, c, mem, FlatExecute(i, c, mem), AluValue(i.op, c.regs[i.rs], c.regs[i.rt], i.extra))
  {
    hide Overflows, AluValue, Wrap, EffectOf, Fitting, Computes, Retires, Traps, Finish, Trapped;
    var s, t, x := c.regs[i.rs], c.regs[i.rt], i.extra;
    var v := AluValue(i.op, s, t, x);
    ArithmeticEffect(i, c);
    ComputesExact(i.op, s, t, x);
    FinishRetires(c, mem, c.regs[Target(i) := v], map[Target(i) := v], 0, 0, c.nextPc + 4);
    TrappedTraps(c, mem, OverflowException, 0);
  }

  lemma LinkedExact(i: Instruction, r: Regs, link: Word, k: nat)
    requires Branches(i.op) && i.rd < 32 && k < 34
    ensures Linked(i, r, link)[k] == if k < 32 && LinksIn(i, k) then link else r[k]
  {
  }

  lemma BranchExact(i: Instruction, c: CpuState, mem: seq<Byte>) returns (to: Word)
    requires Decodable(i) && Branches(i.op)
    ensures BranchDone(i, c, mem, FlatExecute(i, c, mem), to)
  {
    hide BranchTarget, GoesTo, Retires, Finish, Trapped, IsTrap, IsHiLo, IsMemory, IsBranch, Linked, LinksIn, Wrap,
      Branches;
    Kinds(i.op);
    var link := (c.nextPc + 4) % 0x1_0000_0000;
    WrapIs(c.nextPc + 4);
    var linked := Linked(i, c.regs, link);
    to := BranchTarget(i.op, linked[i.rs], linked[i.rt], i.extra, c.nextPc);
    TargetExact(i.op, linked[i.rs], linked[i.rt], i.extra, c.nextPc);
    forall k: nat | k < 34
      ensures linked[k] == if k < 32 && LinksIn(i, k) then link else c.regs[k]
    {
      LinkedExact(i, c.regs, link, k);
    }
    WrapIs(to);
    FinishRetires(c, mem, linked, map r: nat | r < 32 && LinksIn(i, r) :: link, 0, 0, to);
  }

  lemma WrapIs(x: int)
    ensures Wrap(x) == x % 0x1_0000_0000 && (0 <= x < 0x1_0000_0000 ==> Wrap(x) == x)
  {
  }

  lemma AddressIs(i: Instruction, r: Regs)
    requires i.rs < 32
    ensures AddressOf(i, r) == (r[i.rs] + i.extra) % 0x1_0000_0000
  {
  }

  lemma LoadEffect(i: Instruction, r: Regs, nextPc: Word)
    requires Decodable(i) && Loads(i.op)
    ensures var a := AddressOf(i, r);
            EffectOf(i, r, nextPc) ==
            if i.op !in {LWL, LWR} && a % Width(i.op) != 0 then Trap(AddressErrorException, a)
            else LoadFrom(Start(i.op, a), SizeOf(i.op))
  {
    hide IsTrap, IsHiLo, IsBranch, AddressOf;
    Kinds(i.op);
  }

  // A load reads where it should, or fails with the address.
  lemma LoadReads(i: Instruction, c: CpuState, mem: seq<Byte>)
    requires Decodable(i) && Loads(i.op)
    ensures var at := Start(i.op, AddressOf(i, c.regs));
            FlatExecute(i, c, mem) ==
            match FlatRead(mem, at, SizeOf(i.op))
            case Value(v) => Completed(Finish(c, c.regs, i.rt, LoadResult(i, c, v), NextAfter(c)), mem)
            case ReadFails(_) => Raised(AddressErrorException, Trapped(c, at), mem)
    ensures Fits(mem, Start(i.op, AddressOf(i, c.regs)), Width(i.op)) <==>
              FlatRead(mem, Start(i.op, AddressOf(i, c.regs)), SizeOf(i.op)).Value?
  {
    hide EffectOf, Finish, Trapped, LoadResult, AddressOf, LoadedValue, Width;
    LoadEffect(i, c.regs, c.nextPc);
    var a := AddressOf(i, c.regs);
    FailsExact(mem, Start(i.op, a), SizeOf(i.op), 0);
    if i.op !in {LWL, LWR} && a % Width(i.op) != 0 {
      assert Start(i.op, a) == a && !Fits(mem, a, Width(i.op));
    }
  }

  lemma LoadExact(i: Instruction, c: CpuState, mem: seq<Byte>) returns (v: Word)
    requires Decodable(i) && Loads(i.op)
    ensures LoadDone(i, c, mem, FlatExecute(i, c, mem), v)
  {
    hide AddressOf, Start, Width, SizeOf, Retires, Traps, Finish, Trapped, Wrap, Fits, LoadResult, Brings, FlatRead,
      FlatExecute;
    LoadReads(i, c, mem);
    AddressIs(i, c.regs);
    var at := Start(i.op, AddressOf(i, c.regs));
    TrappedTraps(c, mem, AddressErrorException, at);
    v := 0;
    if Fits(mem, at, Width(i.op)) {
      v := LoadResult(i, c, FlatRead(mem, at, SizeOf(i.op)).word);
      FinishRetires(c, mem, c.regs, map[], i.rt, v, c.nextPc + 4);
      LoadBrings(i, c, mem);
    }
  }

  lemma LoadBrings(i: Instruction, c: CpuState, mem: seq<Byte>)
    requires Decodable(i) && Loads(i.op) && Fits(mem, Start(i.op, AddressOf(i, c.regs)), Width(i.op))
    ensures var a := AddressOf(i, c.regs);
            var kept := if c.loadReg == i.rt then c.loadValue else c.regs[i.rt];
            && FlatRead(mem, Start(i.op, a), SizeOf(i.op)).Value?
            && Brings(i.op, mem, a, kept, LoadResult(i, c, FlatRead(mem, Start(i.op, a), SizeOf(i.op)).word))
  {
    hide LoadResult, Brings, FlatRead, AddressOf, Fits;
    var a := AddressOf(i, c.regs);
    if i.op in {LWL, LWR} {
      PartialRead(mem, a);
      PartialLoadExact(i, mem, c);
    } else {
      ShortLoadExact(i.op, mem, a, if c.loadReg == i.rt then c.loadValue else c.regs[i.rt], i, c);
    }
  }

  lemma StoreEffect(i: Instruction, r: Regs, nextPc: Word)
    requires Decodable(i) && Stores(i.op)
    ensures var a := AddressOf(i, r);
            EffectOf(i, r, nextPc) ==
            if i.op in {SWL, SWR} then MergeAt(a - a % 4) else StoreTo(a, SizeOf(i.op), r[i.rt])
  {
    hide IsTrap, IsHiLo, IsBranch, AddressOf;
    Kinds(i.op);
  }

  // A store writes where it should, or fails with the address.
  lemma ShortStoreWrites(i: Instruction, c: CpuState, mem: seq<Byte>)
    requires Decodable(i) && i.op in {SB, SH, SW}
    ensures var a := AddressOf(i, c.regs);
            FlatExecute(i, c, mem) ==
            match FlatWrite(mem, a, SizeOf(i.op), c.regs[i.rt])
            case Written(mem') => Completed(Finish(c, c.regs, 0, 0, NextAfter(c)), mem')
            case WriteFails(_) => Raised(AddressErrorException, Trapped(c, a), mem)
    ensures Fits(mem, AddressOf(i, c.regs), Width(i.op)) <==>
              FlatWrite(mem, AddressOf(i, c.regs), SizeOf(i.op), c.regs[i.rt]).Written?
  {
    hide EffectOf, Finish, Trapped, AddressOf, StoredBytes, Width, Splice;
    StoreEffect(i, c.regs, c.nextPc);
    FailsExact(mem, AddressOf(i, c.regs), SizeOf(i.op), c.regs[i.rt]);
  }

  lemma ShortStart(op: Op, a: Word)
    requires op in {SB, SH, SW}
    ensures Start(op, a) == a
  {
  }

  lemma ShortStoreDone(i: Instruction, c: CpuState, mem: seq<Byte>)
    requires Decodable(i) && i.op in {SB, SH, SW}
    ensures StoreDone(i, c, mem, FlatExecute(i, c, mem))
  {
    hide AddressOf, Start, Width, SizeOf, Retires, Traps, Finish, Trapped, Wrap, Leaves, FlatWrite, FlatExecute, Fits;
    ShortStoreWrites(i, c, mem);
    AddressIs(i, c.regs);
    var a := AddressOf(i, c.regs);
    ShortStart(i.op, a);
    TrappedTraps(c, mem, AddressErrorException, a);
    if Fits(mem, a, Width(i.op)) {
      ShortStoreExact(i.op, mem, a, c.regs[i.rt]);
      FinishRetires(c, FlatExecute(i, c, mem).mem, c.regs, map[], 0, 0, c.nextPc + 4);
    }
  }

  lemma PartialStoreWrites(i: Instruction, c: CpuState, mem: seq<Byte>)
    requires Decodable(i) && i.op in {SWL, SWR}
    ensures var at := Start(i.op, AddressOf(i, c.regs));
            FlatExecute(i, c, mem) ==
            match FlatRead(mem, at, Four)
            case Value(v) =>
              (match FlatWrite(mem, at, Four, MergeResult(i, c.regs, v))
               case Written(mem') => Completed(Finish(c, c.regs, 0, 0, NextAfter(c)), mem')
               case WriteFails(exc) => Raised(exc, Trapped(c, at), mem))
            case ReadFails(_) => Raised(AddressErrorException, Trapped(c, at), mem)
    ensures Fits(mem, Start(i.op, AddressOf(i, c.regs)), Width(i.op)) <==>
              FlatRead(mem, Start(i.op, AddressOf(i, c.regs)), Four).Value?
  {
    hide EffectOf, Finish, Trapped, AddressOf, LoadedValue, MergeResult, FlatWrite;
    StoreEffect(i, c.regs, c.nextPc);
    FailsExact(mem, Start(i.op, AddressOf(i, c.regs)), Four, 0);
  }

  lemma PartialStoreDone(i: Instruction, c: CpuState, mem: seq<Byte>)
    requires Decodable(i) && i.op in {SWL, SWR}
    ensures StoreDone(i, c, mem, FlatExecute(i, c, mem))
  {
    hide AddressOf, Start, Width, Retires, Traps, Finish, Trapped, Wrap, Leaves, FlatRead, FlatWrite, FlatExecute,
      MergeResult, Fits;
    PartialStoreWrites(i, c, mem);
    AddressIs(i, c.regs);
    var at := Start(i.op, AddressOf(i, c.regs));
    TrappedTraps(c, mem, AddressErrorException, at);
    if Fits(mem, at, Width(i.op)) {
      PartialStoreExact(i, mem, c.regs);
      FinishRetires(c, FlatExecute(i, c, mem).mem, c.regs, map[], 0, 0, c.nextPc + 4);
    }
  }

  lemma StoreExact(i: Instruction, c: CpuState, mem: seq<Byte>)
    requires Decodable(i) && Stores(i.op)
    ensures StoreDone(i, c, mem, FlatExecute(i, c, mem))
  {
    hide StoreDone, FlatExecute;
    if i.op in {SWL, SWR} {
      PartialStoreDone(i, c, mem);
    } else {
      ShortStoreDone(i, c, mem);
    }
  }

  lemma HiLoEffect(i: Instruction, r: Regs, nextPc: Word)
    requires Decodable(i) && (Moves(i.op) || Pairing(i.op))
    ensures EffectOf(i, r, nextPc) == Done(HiLoRegs(i, r), Wrap(nextPc + 4))
  {
    hide IsTrap, IsMemory, IsBranch, IsHiLo, HiLoRegs, Wrap;
    Kinds(i.op);
  }

  // Computing ends in the registers given.
  lemma DoneRetires(i: Instruction, c: CpuState, mem: seq<Byte>, regs: Regs, writes: map<nat, Word>)
    requires Decodable(i) && EffectOf(i, c.regs, c.nextPc) == Done(regs, Wrap(c.nextPc + 4))
    requires forall r: nat :: r < 34 ==> regs[r] == if r in writes then writes[r] else c.regs[r]
    ensures var out := FlatExecute(i, c, mem); Retires(c, out, writes, 0, 0, c.nextPc + 4) && out.mem == mem
    ensures forall r: nat :: 32 <= r < 34 ==> FlatExecute(i, c, mem).cpu.regs[r] == regs[r]
  {
    hide EffectOf, Finish, Wrap, AmountFits;
    FinishRetires(c, mem, regs, writes, 0, 0, c.nextPc + 4);
  }

  lemma MoveExact(i: Instruction, c: CpuState, mem: seq<Byte>)
    requires Decodable(i) && Moves(i.op)
    ensures MoveDone(i, c, mem, FlatExecute(i, c, mem))
  {
    hide Retires, Wrap, EffectOf, HiLoPair, FlatExecute, Decodable;
    HiLoEffect(i, c.regs, c.nextPc);
    assert i.rs < 32 && i.rt < 32 && i.rd < 32 by { Registers(i); }
    var r := if i.op == MTHI then 32 else if i.op == MTLO then 33 else i.rd;
    var v := HiLoRegs(i, c.regs)[r];
    DoneRetires(i, c, mem, c.regs[r := v], map[r := v]);
  }

  lemma Registers(i: Instruction)
    requires Decodable(i)
    ensures i.rs < 32 && i.rt < 32 && i.rd < 32 && Handled(i.op)
  {
  }

  lemma PairExact(i: Instruction, c: CpuState, mem: seq<Byte>)
    requires Decodable(i) && Pairing(i.op)
    ensures PairDone(i, c, mem, FlatExecute(i, c, mem))
  {
    hide Wrap, HiLoPair, Pairs, EffectOf, FlatExecute, Retires;
    HiLoEffect(i, c.regs, c.nextPc);
    var p := HiLoPair(i.op, c.regs[i.rs], c.regs[i.rt]);
    PairsExact(i.op, c.regs[i.rs], c.regs[i.rt]);
    DoneRetires(i, c, mem, c.regs[32 := p.0][33 := p.1], map[32 := p.0, 33 := p.1]);
  }

  // Every instruction, with any operands, does what is said of it.
  lemma ExecuteExact(i: Instruction, c: CpuState, mem: seq<Byte>) returns (v: Word)
    requires Decodable(i)
    ensures Behaves(i, c, mem, FlatExecute(i, c, mem), v)
  {
    hide FlatExecute, ArithmeticDone, BranchDone, LoadDone, StoreDone, MoveDone, PairDone, Traps, Arithmetic, Branches,
      Loads, Stores, Moves, Pairing, AmountFits;
    v := 0;
    if Arithmetic(i.op) {
      v := AluValue(i.op, c.regs[i.rs], c.regs[i.rt], i.extra);
      ArithmeticExact(i, c, mem);
    } else if Branches(i.op) {
      v := BranchExact(i, c, mem);
    } else if Loads(i.op) {
      v := LoadExact(i, c, mem);
    } else if Stores(i.op) {
      StoreExact(i, c, mem);
    } else if Moves(i.op) {
      MoveExact(i, c, mem);
    } else if Pairing(i.op) {
      PairExact(i, c, mem);
    } else {
      OnlySyscall(i);
      TrapExact(i, c, mem);
    }
  }

  lemma OnlySyscall(i: Instruction)
    requires Decodable(i) && !Arithmetic(i.op) && !Branches(i.op) && !Loads(i.op) && !Stores(i.op) && !Moves(i.op)
    requires !Pairing(i.op)
    ensures i.op == SYSCALL
  {
  }

  lemma TrapExact(i: Instruction, c: CpuState, mem: seq<Byte>)
    requires i.op in {SYSCALL, UNIMP, RES} && i.rs < 32 && i.rt < 32 && i.rd < 32
    ensures Traps(c, mem, FlatExecute(i, c, mem),
                  if i.op == SYSCALL then SyscallException else IllegalInstrException, 0)
  {
  }

  // -------------------------------------------------------- from the memory

  lemma CodedDecodable(i: Instruction)
    requires WellCoded(i)
    ensures Decodable(i)
  {
  }

  // The instruction executed is the one whose encoding is the word at the
  // program counter.  If there is none, or no such word, there is an exception.
  lemma StepExact(c: CpuState, mem: seq<Byte>)
    ensures !Fits(mem, c.pc, 4) ==> Traps(c, mem, FlatStep(c, mem), AddressErrorException, c.pc)
    ensures Fits(mem, c.pc, 4) ==>
              var w := Number(mem[c.pc..c.pc + 4]);
              && (forall i {:trigger Encode(i)} :: WellCoded(i) && Encode(i) == w ==>
                    i.rs < 32 && i.rt < 32 && exists v :: Behaves(i, c, mem, FlatStep(c, mem), v))
              && ((forall i {:trigger Encode(i)} :: WellCoded(i) ==> Encode(i) != w) ==>
                    Traps(c, mem, FlatStep(c, mem), IllegalInstrException, 0))
  {
    hide FlatRead, Decode, Encode, WellCoded, FlatExecute, Behaves, Traps, Trapped, Number, Fits;
    ReadExact(mem, c.pc, Four);
    FailsExact(mem, c.pc, Four, 0);
    TrappedTraps(c, mem, AddressErrorException, c.pc);
    if Fits(mem, c.pc, 4) {
      var w := Number(mem[c.pc..c.pc + 4]);
      forall i {:trigger Encode(i)} | WellCoded(i) && Encode(i) == w
        ensures i.rs < 32 && i.rt < 32 && exists v :: Behaves(i, c, mem, FlatStep(c, mem), v)
      {
        DecodesBack(i);
        CodedDecodable(i);
        var v := ExecuteExact(i, c, mem);
        assert FlatStep(c, mem) == FlatExecute(i, c, mem);
        assert Behaves(i, c, mem, FlatStep(c, mem), v);
      }
      if Decode(w).op == UNIMP || Decode(w).op == RES {
        TrapExact(Decode(w), c, mem);
      } else {
        EncodesBack(w);
      }
    }
  }
}
