// The instruction set of the simulated processor: decoding, and what each
// instruction does to the registers or asks of the memory.  The memory itself
// is left to the two step functions in Steps.dfy.
module Mips {
  import opened Words
  import opened Memory
  import Multiply

  // machine/mipssim.h: the operation codes.  SPECIAL and BCOND are only
  // decoding steps; RFE has a code but no table entry.
  datatype Op = ADD | ADDI | ADDIU | ADDU | AND | ANDI | BEQ | BGEZ | BGEZAL
    | BGTZ | BLEZ | BLTZ | BLTZAL | BNE | DIV | DIVU | J | JAL | JALR | JR
    | LB | LBU | LH | LHU | LUI | LW | LWL | LWR | MFHI | MFLO | MTHI | MTLO
    | MULT | MULTU | NOR | OR | ORI | RFE | SB | SH | SLL | SLLV | SLT | SLTI
    | SLTIU | SLTU | SRA | SRAV | SRL | SRLV | SUB | SUBU | SW | SWL | SWR
    | XOR | XORI | SYSCALL | UNIMP | RES | SPECIAL | BCOND

  datatype Format = IFMT | JFMT | RFMT

  function OpTable(code: nat): Op
    requires code < 64
  {
    match code
    case 0 => SPECIAL case 1 => BCOND case 2 => J case 3 => JAL
    case 4 => BEQ case 5 => BNE case 6 => BLEZ case 7 => BGTZ
    case 8 => ADDI case 9 => ADDIU case 10 => SLTI case 11 => SLTIU
    case 12 => ANDI case 13 => ORI case 14 => XORI case 15 => LUI
    case 32 => LB case 33 => LH case 34 => LWL case 35 => LW
    case 36 => LBU case 37 => LHU case 38 => LWR
    case 40 => SB case 41 => SH case 42 => SWL case 43 => SW case 46 => SWR
    case _ =>
      if 16 <= code < 20 || 48 <= code < 52 || 56 <= code < 60 then UNIMP else RES
  }

  function FormatTable(code: nat): Format
    requires code < 64
  {
    if code == 0 then RFMT else if code == 2 || code == 3 then JFMT else IFMT
  }

  function SpecialTable(funct: nat): Op
    requires funct < 64
  {
    match funct
    case 0 => SLL case 2 => SRL case 3 => SRA case 4 => SLLV case 6 => SRLV case 7 => SRAV
    case 8 => JR case 9 => JALR case 12 => SYSCALL case 13 => UNIMP
    case 16 => MFHI case 17 => MTHI case 18 => MFLO case 19 => MTLO
    case 24 => MULT case 25 => MULTU case 26 => DIV case 27 => DIVU
    case 32 => ADD case 33 => ADDU case 34 => SUB case 35 => SUBU
    case 36 => AND case 37 => OR case 38 => XOR case 39 => NOR
    case 42 => SLT case 43 => SLTU
    case _ => RES
  }

  datatype Instruction = Instruction(op: Op, rs: nat, rt: nat, rd: nat, extra: Word)

  // Every operation that the switch of OneInstruction has a case for.
  predicate Handled(op: Op) {
    op != RFE && op != SPECIAL && op != BCOND
  }

  // Bits of a word: "size" values starting at the bit worth "unit".
  function Field(value: Word, unit: nat, size: nat): (f: nat)
    requires unit > 0 && size > 0
    ensures f < size
  {
    value / unit % size
  }

  function OperationOf(code: nat, rt: nat, funct: nat): (op: Op)
    requires code < 64 && funct < 64
    ensures Handled(op)
  {
    var op := OpTable(code);
    if op == SPECIAL then SpecialTable(funct)
    else if op == BCOND then
      if rt == 0 then BLTZ else if rt == 1 then BGEZ
      else if rt == 16 then BLTZAL else if rt == 17 then BGEZAL else UNIMP
    else op
  }

  // The immediate (sign-extended), shift amount or jump target field.
  function ExtraOf(value: Word, format: Format): Word {
    match format
    case IFMT => (var e: int := Field(value, 1, 0x1_0000); if e >= 0x8000 then e + 0xffff_0000 else e)
    case RFMT => Field(value, 0x40, 32)
    case JFMT => Field(value, 1, 0x400_0000)
  }

  // Decoding a 32-bit word never reaches the switch's ASSERT(FALSE), and the
  // register numbers are in range.
  function Decode(value: Word): (i: Instruction)
    ensures Handled(i.op)
    ensures i.rs < 32 && i.rt < 32 && i.rd < 32
  {
    var code, rt := Field(value, 0x400_0000, 64), Field(value, 0x1_0000, 32);
    Instruction(OperationOf(code, rt, Field(value, 1, 64)),
                Field(value, 0x20_0000, 32), rt, Field(value, 0x800, 32),
                ExtraOf(value, FormatTable(code)))
  }

  // ------------------------------------------------------------ registers

  // The general registers followed by HI (32) and LO (33).
  type Regs = s: seq<Word> | |s| == 34 witness seq(34, i => 0)

  // machine/machine.h: the user program's CPU state.
  datatype Cpu = Cpu(regs: Regs, pc: Word, nextPc: Word, prevPc: Word,
                     loadReg: nat, loadValue: Word, badVAddr: Word)

  predicate WellFormed(c: Cpu) {
    c.regs[0] == 0 && c.loadReg < 32
  }

  // Machine::DelayedLoad
  function DelayedLoad(c: Cpu, nextReg: nat, nextValue: Word): (c': Cpu)
    requires c.loadReg < 32
    ensures nextReg < 32 ==> WellFormed(c')
  {
    c.(regs := c.regs[c.loadReg := c.loadValue][0 := 0], loadReg := nextReg, loadValue := nextValue)
  }

  // What Machine::RaiseException does to the registers before the handler runs.
  function Trapped(c: Cpu, bad: Word): (c': Cpu)
    requires c.loadReg < 32
    ensures WellFormed(c')
  {
    DelayedLoad(c.(badVAddr := bad), 0, 0)
  }

  // The end of an instruction: the pending load lands, then the program
  // counters advance.
  function Finish(c: Cpu, regs: Regs, loadReg: nat, loadValue: Word, pcAfter: Word): (c': Cpu)
    requires c.loadReg < 32 && loadReg < 32
    ensures WellFormed(c')
  {
    DelayedLoad(c.(regs := regs), loadReg, loadValue)
      .(prevPc := c.pc, pc := c.nextPc, nextPc := pcAfter)
  }

  // --------------------------------------------------------- instructions

  datatype Effect =
    | Trap(exc: Exception, bad: Word)
    | Done(regs: Regs, pcAfter: Word)
    | LoadFrom(addr: Word, size: Size)
    | StoreTo(addr: Word, size: Size, value: Word)
    | MergeAt(addr: Word)

  function Flag(b: bool): Word { if b then 1 else 0 }

  // Signed overflow as the code detects it, from the sign bits alone.
  predicate AddOverflows(a: Word, b: Word) {
    Negative(a) == Negative(b) && Negative(a) != Negative(Wrap(a + b))
  }

  predicate SubOverflows(a: Word, b: Word) {
    Negative(a) != Negative(b) && Negative(a) != Negative(Wrap(a - b))
  }

  // The sign-bit tests are exact.
  lemma AddOverflowExact(a: Word, b: Word)
    ensures AddOverflows(a, b) <==> !(-0x8000_0000 <= Signed(a) + Signed(b) < 0x8000_0000)
    ensures !AddOverflows(a, b) ==> Signed(Wrap(a + b)) == Signed(a) + Signed(b)
  {
  }

  lemma SubOverflowExact(a: Word, b: Word)
    ensures SubOverflows(a, b) <==> !(-0x8000_0000 <= Signed(a) - Signed(b) < 0x8000_0000)
    ensures !SubOverflows(a, b) ==> Signed(Wrap(a - b)) == Signed(a) - Signed(b)
  {
  }

  predicate IsBranch(op: Op) {
    op in {BEQ, BGEZ, BGEZAL, BGTZ, BLEZ, BLTZ, BLTZAL, BNE, J, JAL, JALR, JR}
  }

  predicate IsMemory(op: Op) {
    op in {LB, LBU, LH, LHU, LW, LWL, LWR, SB, SH, SW, SWL, SWR}
  }

  predicate IsTrap(op: Op) {
    op in {SYSCALL, UNIMP, RES}
  }

  function AddressOf(i: Instruction, r: Regs): Word
    requires i.rs < 32
  {
    Wrap(r[i.rs] + i.extra)
  }

  function MemoryEffect(i: Instruction, r: Regs): Effect
    requires IsMemory(i.op) && i.rs < 32 && i.rt < 32
  {
    var a := AddressOf(i, r);
    if i.op == LB || i.op == LBU then LoadFrom(a, One)
    else if i.op == LH || i.op == LHU then
      if a % 2 != 0 then Trap(AddressErrorException, a) else LoadFrom(a, Two)
    else if i.op == LW then
      if a % 4 != 0 then Trap(AddressErrorException, a) else LoadFrom(a, Four)
    else if i.op == LWL || i.op == LWR then LoadFrom(a - a % 4, Four)
    else if i.op == SB then StoreTo(a, One, r[i.rt])
    else if i.op == SH then StoreTo(a, Two, r[i.rt])
    else if i.op == SW then StoreTo(a, Four, r[i.rt])
    else MergeAt(a - a % 4)
  }

  // Whether a conditional branch is taken, given its two registers.
  predicate Taken(op: Op, s: Word, t: Word) {
    match op
    case BEQ => s == t
    case BNE => s != t
    case BGEZ => !Negative(s)
    case BGEZAL => !Negative(s)
    case BLTZ => Negative(s)
    case BLTZAL => Negative(s)
    case BGTZ => Signed(s) > 0
    case _ => Signed(s) <= 0
  }

  // The registers with the return address linked, if the instruction links.
  function Linked(i: Instruction, r: Regs, after: Word): Regs
    requires i.rd < 32
  {
    if i.op == BGEZAL || i.op == BLTZAL || i.op == JAL then r[31 := after]
    else if i.op == JALR then r[i.rd := after]
    else r
  }

  // Where a branch or jump goes, given its two registers.
  function BranchTarget(op: Op, s: Word, t: Word, extra: Word, nextPc: Word): Word {
    if op == J || op == JAL then Or(And(Wrap(nextPc + 4), 0xf000_0000), ShiftLeft(extra, 2))
    else if op == JR || op == JALR then s
    else if Taken(op, s, t) then Wrap(nextPc + ShiftLeft(extra, 2))
    else Wrap(nextPc + 4)
  }

  // Branches and jumps.  The link register is written before the branch
  // registers are read.
  function BranchEffect(i: Instruction, r: Regs, nextPc: Word): Effect
    requires IsBranch(i.op) && i.rs < 32 && i.rt < 32 && i.rd < 32
  {
    var linked := Linked(i, r, Wrap(nextPc + 4));
    Done(linked, BranchTarget(i.op, linked[i.rs], linked[i.rt], i.extra, nextPc))
  }

  predicate IsImmediate(op: Op) {
    op in {ADDI, ADDIU, ANDI, ORI, XORI, LUI, SLTI, SLTIU}
  }

  predicate IsHiLo(op: Op) {
    op in {MFHI, MFLO, MTHI, MTLO, MULT, MULTU, DIV, DIVU}
  }

  // The value computed from two registers and the immediate field.
  function AluValue(op: Op, s: Word, t: Word, extra: Word): Word {
    match op
    case ADD => Wrap(s + t)
    case ADDI => Wrap(s + extra)
    case ADDIU => Wrap(s + extra)
    case ADDU => Wrap(s + t)
    case SUB => Wrap(s - t)
    case SUBU => Wrap(s - t)
    case AND => And(s, t)
    case ANDI => And(s, extra % 0x1_0000)
    case OR => Or(s, t)
    case ORI => Or(s, extra % 0x1_0000)
    case XOR => Xor(s, t)
    case XORI => Xor(s, extra % 0x1_0000)
    case NOR => Not(Or(s, t))
    case LUI => ShiftLeft(extra, 16)
    case SLL => ShiftLeft(t, extra)
    case SLLV => ShiftLeft(t, s % 32)
    case SRA => ShiftRight(t, extra)
    case SRAV => ShiftRight(t, s % 32)
    // The temporary shifted is a signed int, so SRL copies the sign as SRA does.
    case SRL => ShiftRight(t, extra)
    case SRLV => ShiftRight(t, s % 32)
    case SLT => Flag(Signed(s) < Signed(t))
    case SLTI => Flag(Signed(s) < Signed(extra))
    case SLTU => Flag(s < t)
    case SLTIU => Flag(s < extra)
    case _ => 0
  }

  predicate Overflows(op: Op, s: Word, t: Word, extra: Word) {
    match op
    case ADD => AddOverflows(s, t)
    case ADDI => AddOverflows(extra, s)
    case SUB => SubOverflows(s, t)
    case _ => false
  }

  // HI and LO after a multiplication or division.
  function HiLoPair(op: Op, s: Word, t: Word): (Word, Word) {
    match op
    case MULT => var p := Multiply.Product(s, t, true); (Multiply.HighWord(p), Multiply.LowWord(p))
    case MULTU => var p := Multiply.Product(s, t, false); (Multiply.HighWord(p), Multiply.LowWord(p))
    case DIV => if t == 0 then (0, 0) else (Wrap(Remainder(Signed(s), Signed(t))), Wrap(Quotient(Signed(s), Signed(t))))
    case _ => if t == 0 then (0, 0) else (s % t, s / t)
  }

  // Moves to and from HI and LO, multiplication and division.
  function HiLoRegs(i: Instruction, r: Regs): Regs
    requires i.rs < 32 && i.rt < 32 && i.rd < 32
  {
    match i.op
    case MFHI => r[i.rd := r[32]]
    case MFLO => r[i.rd := r[33]]
    case MTHI => r[32 := r[i.rs]]
    case MTLO => r[33 := r[i.rs]]
    case _ => var p := HiLoPair(i.op, r[i.rs], r[i.rt]); r[32 := p.0][33 := p.1]
  }

  // Everything an instruction does up to its memory access.
  function EffectOf(i: Instruction, r: Regs, nextPc: Word): Effect
    requires Handled(i.op) && i.rs < 32 && i.rt < 32 && i.rd < 32
  {
    if i.op == SYSCALL then Trap(SyscallException, 0)
    else if IsTrap(i.op) then Trap(IllegalInstrException, 0)
    else if IsMemory(i.op) then MemoryEffect(i, r)
    else if IsBranch(i.op) then BranchEffect(i, r, nextPc)
    else if IsHiLo(i.op) then Done(HiLoRegs(i, r), Wrap(nextPc + 4))
    else if Overflows(i.op, r[i.rs], r[i.rt], i.extra) then Trap(OverflowException, 0)
    else
      var target := if IsImmediate(i.op) then i.rt else i.rd;
      Done(r[target := AluValue(i.op, r[i.rs], r[i.rt], i.extra)], Wrap(nextPc + 4))
  }

  // The bytes of the loaded word that LWL and LWR put in the register, for
  // an address that is k bytes past a word boundary.
  function LoadLeft(kept: Word, v: Word, k: nat): Word
    requires k < 4
  {
    if k == 3 then v
    else if k == 2 then Join(ByteOf(kept, 0), ByteOf(v, 0), ByteOf(v, 1), ByteOf(v, 2))
    else if k == 1 then Join(ByteOf(kept, 0), ByteOf(kept, 1), ByteOf(v, 0), ByteOf(v, 1))
    else Join(ByteOf(kept, 0), ByteOf(kept, 1), ByteOf(kept, 2), ByteOf(v, 0))
  }

  function LoadRight(kept: Word, v: Word, k: nat): Word
    requires k < 4
  {
    if k == 0 then v
    else if k == 1 then Join(ByteOf(v, 1), ByteOf(v, 2), ByteOf(v, 3), ByteOf(kept, 3))
    else if k == 2 then Join(ByteOf(v, 2), ByteOf(v, 3), ByteOf(kept, 2), ByteOf(kept, 3))
    else Join(ByteOf(v, 3), ByteOf(kept, 1), ByteOf(kept, 2), ByteOf(kept, 3))
  }

  function StoreLeft(v: Word, t: Word, k: nat): Word
    requires k < 4
  {
    if k == 3 then t
    else if k == 2 then Join(ByteOf(t, 1), ByteOf(t, 2), ByteOf(t, 3), ByteOf(v, 3))
    else if k == 1 then Join(ByteOf(t, 2), ByteOf(t, 3), ByteOf(v, 2), ByteOf(v, 3))
    else Join(ByteOf(t, 3), ByteOf(v, 1), ByteOf(v, 2), ByteOf(v, 3))
  }

  function StoreRight(v: Word, t: Word, k: nat): Word
    requires k < 4
  {
    if k == 0 then t
    else if k == 1 then Join(ByteOf(v, 0), ByteOf(t, 0), ByteOf(t, 1), ByteOf(t, 2))
    else if k == 2 then Join(ByteOf(v, 0), ByteOf(v, 1), ByteOf(t, 0), ByteOf(t, 1))
    else Join(ByteOf(v, 0), ByteOf(v, 1), ByteOf(v, 2), ByteOf(t, 0))
  }

  // The register value of a completed load.  LWL and LWR merge into the
  // target register, or into the value on its way to that register.
  function LoadResult(i: Instruction, c: Cpu, v: Word): Word
    requires i.rs < 32 && i.rt < 32
  {
    var k := AddressOf(i, c.regs) % 4;
    var kept := if c.loadReg == i.rt then c.loadValue else c.regs[i.rt];
    match i.op
    case LB => if v % 0x100 >= 0x80 then v % 0x100 + 0xffff_ff00 else v % 0x100
    case LBU => v % 0x100
    case LH => if v % 0x1_0000 >= 0x8000 then v % 0x1_0000 + 0xffff_0000 else v % 0x1_0000
    case LHU => v % 0x1_0000
    case LWL => LoadLeft(kept, v, k)
    case LWR => LoadRight(kept, v, k)
    case _ => v
  }

  // The word SWL and SWR write back, given the word they read.
  function MergeResult(i: Instruction, r: Regs, v: Word): Word
    requires i.rs < 32 && i.rt < 32
  {
    var k := AddressOf(i, r) % 4;
    if i.op == SWL then StoreLeft(v, r[i.rt], k) else StoreRight(v, r[i.rt], k)
  }
}
