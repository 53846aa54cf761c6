// The encoding of instructions in words, written from the instruction formats,
// and that decoding inverts it.
module Encoding {
  import opened Words
  import opened Mips
  import Bits

  // The code in the six highest bits, for the operations that have one of
  // their own; 64 for the others.
  function MainCode(op: Op): nat {
    if op.J? then 0x02 else if op.JAL? then 0x03 else if op.BEQ? then 0x04
    else if op.BNE? then 0x05 else if op.BLEZ? then 0x06 else if op.BGTZ? then 0x07
    else if op.ADDI? then 0x08 else if op.ADDIU? then 0x09 else if op.SLTI? then 0x0a
    else if op.SLTIU? then 0x0b else if op.ANDI? then 0x0c else if op.ORI? then 0x0d
    else if op.XORI? then 0x0e else if op.LUI? then 0x0f else if op.LB? then 0x20
    else if op.LH? then 0x21 else if op.LWL? then 0x22 else if op.LW? then 0x23
    else if op.LBU? then 0x24 else if op.LHU? then 0x25 else if op.LWR? then 0x26
    else if op.SB? then 0x28 else if op.SH? then 0x29 else if op.SWL? then 0x2a
    else if op.SW? then 0x2b else if op.SWR? then 0x2e
    else 64
  }

  // The code in the six lowest bits, for those whose highest bits are 0.
  function SpecialCode(op: Op): nat {
    if op.SLL? then 0x00 else if op.SRL? then 0x02 else if op.SRA? then 0x03
    else if op.SLLV? then 0x04 else if op.SRLV? then 0x06 else if op.SRAV? then 0x07
    else if op.JR? then 0x08 else if op.JALR? then 0x09 else if op.SYSCALL? then 0x0c
    else if op.MFHI? then 0x10 else if op.MTHI? then 0x11 else if op.MFLO? then 0x12
    else if op.MTLO? then 0x13 else if op.MULT? then 0x18 else if op.MULTU? then 0x19
    else if op.DIV? then 0x1a else if op.DIVU? then 0x1b else if op.ADD? then 0x20
    else if op.ADDU? then 0x21 else if op.SUB? then 0x22 else if op.SUBU? then 0x23
    else if op.AND? then 0x24 else if op.OR? then 0x25 else if op.XOR? then 0x26
    else if op.NOR? then 0x27 else if op.SLT? then 0x2a else if op.SLTU? then 0x2b
    else 64
  }

  // The code in the place of the second register, for those whose highest
  // bits are 1.
  function BranchCode(op: Op): nat {
    if op.BLTZ? then 0x00 else if op.BGEZ? then 0x01 else if op.BLTZAL? then 0x10
    else if op.BGEZAL? then 0x11
    else 64
  }

  datatype Code = Main(code: nat) | Special(code: nat) | Branch(code: nat) | Uncoded

  function CodeOf(op: Op): Code {
    if MainCode(op) < 64 then Main(MainCode(op))
    else if SpecialCode(op) < 64 then Special(SpecialCode(op))
    else if BranchCode(op) < 32 then Branch(BranchCode(op))
    else Uncoded
  }

  lemma OnlySteps()
    ensures CodeOf(SPECIAL) == CodeOf(BCOND) == Uncoded
  {
  }

  lemma MainFits(op: Op)
    ensures MainCode(op) >= 2
  {
  }

  // The immediate field of the format: a shift amount, a jump's index, or a
  // number of sixteen bits, which stands for its sign-extension.
  predicate ExtraFits(op: Op, extra: Word) {
    if CodeOf(op).Special? then extra < 0x20
    else if op.J? || op.JAL? then extra < 0x400_0000
    else extra < 0x8000 || extra >= 0xffff_8000
  }

  // An instruction that some word encodes.
  predicate WellCoded(i: Instruction) {
    && !CodeOf(i.op).Uncoded? && i.rs < 32 && i.rt < 32 && i.rd < 32 && ExtraFits(i.op, i.extra)
    && match CodeOf(i.op)
       case Special(_) => true
       case Branch(c) => i.rt == c && i.rd == i.extra % 0x1_0000 / 0x800
       case _ =>
         if i.op.J? || i.op.JAL?
         then i.rs == i.extra / 0x20_0000 && i.rt == i.extra / 0x1_0000 % 32 && i.rd == i.extra / 0x800 % 32
         else i.rd == i.extra % 0x1_0000 / 0x800
  }

  // The word of an instruction: its fields, each at its place.
  function Encode(i: Instruction): (w: nat)
    requires WellCoded(i)
  {
    match CodeOf(i.op)
    case Special(c) => i.rs * 0x20_0000 + i.rt * 0x1_0000 + i.rd * 0x800 + i.extra * 0x40 + c
    case Branch(c) => 0x400_0000 + i.rs * 0x20_0000 + c * 0x1_0000 + i.extra % 0x1_0000
    case Main(c) =>
      if i.op.J? || i.op.JAL? then c * 0x400_0000 + i.extra
      else c * 0x400_0000 + i.rs * 0x20_0000 + i.rt * 0x1_0000 + i.extra % 0x1_0000
  }

  // ------------------------------------------------------ fields of a word

  // A word is its code, two registers and its lower half.
  predicate Fields(w: Word, code: nat, rs: nat, rt: nat, low: nat) {
    && code < 64 && rs < 32 && rt < 32 && low < 0x1_0000
    && w == code * 0x400_0000 + rs * 0x20_0000 + rt * 0x1_0000 + low
  }

  lemma FieldAt(w: Word, unit: nat, size: nat, high: nat, f: nat, rest: nat)
    requires unit > 0 && f < size && rest < unit && w == (high * size + f) * unit + rest
    ensures Field(w, unit, size) == f
  {
    Bits.ModUnique(w, unit, high * size + f, rest);
    Bits.ModUnique(high * size + f, size, high, f);
  }

  lemma FieldsRead(w: Word, code: nat, rs: nat, rt: nat, low: nat)
    requires Fields(w, code, rs, rt, low)
    ensures Field(w, 0x400_0000, 64) == code && Field(w, 0x20_0000, 32) == rs && Field(w, 0x1_0000, 32) == rt
    ensures Field(w, 1, 0x1_0000) == low && Field(w, 0x800, 32) == low / 0x800
    ensures Field(w, 0x40, 32) == low / 0x40 % 32 && Field(w, 1, 64) == low % 64
    ensures Field(w, 1, 0x400_0000) == rs * 0x20_0000 + rt * 0x1_0000 + low
  {
    hide Field;
    FieldAt(w, 0x400_0000, 64, 0, code, rs * 0x20_0000 + rt * 0x1_0000 + low);
    FieldAt(w, 0x20_0000, 32, code, rs, rt * 0x1_0000 + low);
    FieldAt(w, 0x1_0000, 32, code * 32 + rs, rt, low);
    FieldAt(w, 1, 0x400_0000, code, rs * 0x20_0000 + rt * 0x1_0000 + low, 0);
    LowerFields(w, code * 0x400 + rs * 0x20 + rt, low);
  }

  lemma LowerFields(w: Word, high: nat, low: nat)
    requires low < 0x1_0000 && w == high * 0x1_0000 + low
    ensures Field(w, 1, 0x1_0000) == low && Field(w, 0x800, 32) == low / 0x800
    ensures Field(w, 0x40, 32) == low / 0x40 % 32 && Field(w, 1, 64) == low % 64
  {
    hide Field;
    LowParts(low);
    FieldAt(w, 1, 0x1_0000, high, low, 0);
    FieldAt(w, 0x800, 32, high, low / 0x800, low % 0x800);
    FieldAt(w, 0x40, 32, high * 32 + low / 0x800, low / 0x40 % 32, low % 64);
    FieldAt(w, 1, 64, high * 0x400 + low / 0x40, low % 64, 0);
  }

  lemma WordFields(w: Word)
    ensures Fields(w, w / 0x400_0000, w / 0x20_0000 % 32, w / 0x1_0000 % 32, w % 0x1_0000)
  {
    var h, low := w / 0x1_0000, w % 0x1_0000;
    var g, rt := h / 32, h % 32;
    Bits.ModUnique(w, 0x20_0000, g, rt * 0x1_0000 + low);
    Bits.ModUnique(w, 0x400_0000, g / 32, g % 32 * 0x20_0000 + rt * 0x1_0000 + low);
  }

  // The table look-ups are the codes.
  lemma TableOfMain(op: Op)
    requires MainCode(op) < 64
    ensures OpTable(MainCode(op)) == op && FormatTable(MainCode(op)) == if op.J? || op.JAL? then JFMT else IFMT
  {
    hide FormatTable;
    MainFits(op);
    IndexFormat(op);
  }

  lemma IndexFormat(op: Op)
    requires 2 <= MainCode(op) < 64
    ensures FormatTable(MainCode(op)) == if op.J? || op.JAL? then JFMT else IFMT
  {
  }

  lemma TableOfSpecial(op: Op)
    requires SpecialCode(op) < 64
    ensures SpecialTable(SpecialCode(op)) == op
  {
  }

  lemma TableOfBranch(op: Op)
    requires BranchCode(op) < 32
    ensures OperationOf(1, BranchCode(op), 0) == op
  {
  }

  // No operation has two codes.
  lemma OneCode(op: Op)
    ensures SpecialCode(op) < 64 ==> MainCode(op) == 64
    ensures BranchCode(op) < 32 ==> MainCode(op) == 64 && SpecialCode(op) == 64
  {
    hide MainCode, SpecialCode, BranchCode, OperationOf, SpecialTable;
    if SpecialCode(op) < 64 {
      TableOfSpecial(op);
      SpecialOnly(SpecialCode(op));
    }
    if BranchCode(op) < 32 {
      TableOfBranch(op);
      BranchOnly(BranchCode(op));
    }
  }

  lemma SpecialOnly(funct: nat)
    requires funct < 64
    ensures MainCode(SpecialTable(funct)) == 64
  {
  }

  lemma BranchOnly(rt: nat)
    ensures MainCode(OperationOf(1, rt, 0)) == 64 && SpecialCode(OperationOf(1, rt, 0)) == 64
  {
  }

  lemma MainOfTable(code: nat)
    requires 4 <= code < 64
    ensures OpTable(code) == UNIMP || OpTable(code) == RES || MainCode(OpTable(code)) == code
    ensures OpTable(code) != SPECIAL && OpTable(code) != BCOND && FormatTable(code) == IFMT
  {
  }

  lemma SpecialOfTable(funct: nat)
    requires funct < 64
    ensures SpecialTable(funct) == UNIMP || SpecialTable(funct) == RES || SpecialCode(SpecialTable(funct)) == funct
  {
  }

  lemma BranchOfTable(rt: nat)
    ensures OperationOf(1, rt, 0) == UNIMP || BranchCode(OperationOf(1, rt, 0)) == rt < 32
  {
  }

  lemma FirstTables()
    ensures OpTable(0) == SPECIAL && OpTable(1) == BCOND && FormatTable(0) == RFMT && FormatTable(1) == IFMT
  {
  }

  // ------------------------------------------------------------- both ways

  function Extended(low: nat): Word
    requires low < 0x1_0000
  {
    if low >= 0x8000 then low + 0xffff_0000 else low
  }

  lemma Decoded(w: Word, code: nat, rs: nat, rt: nat, low: nat)
    requires Fields(w, code, rs, rt, low)
    ensures Decode(w) == Instruction(OperationOf(code, rt, low % 64), rs, rt, low / 0x800,
                                     match FormatTable(code)
                                     case IFMT => Extended(low)
                                     case RFMT => low / 0x40 % 32
                                     case JFMT => rs * 0x20_0000 + rt * 0x1_0000 + low)
  {
    hide OperationOf, FormatTable, Field;
    FieldsRead(w, code, rs, rt, low);
  }

  lemma SpecialBack(i: Instruction)
    requires WellCoded(i) && CodeOf(i.op).Special?
    ensures Encode(i) < 0x1_0000_0000 && Decode(Encode(i)) == i
  {
    hide OpTable, SpecialTable, MainCode, SpecialCode, BranchCode, FormatTable, Decode;
    TableOfSpecial(i.op);
    FirstTables();
    LowOf(i.rd, i.extra, CodeOf(i.op).code);
    Decoded(Encode(i), 0, i.rs, i.rt, i.rd * 0x800 + i.extra * 0x40 + CodeOf(i.op).code);
  }

  lemma LowOf(rd: nat, x: nat, c: nat)
    requires rd < 32 && x < 32 && c < 64
    ensures var low := rd * 0x800 + x * 0x40 + c;
            low < 0x1_0000 && low / 0x800 == rd && low / 0x40 % 32 == x && low % 64 == c
  {
    assert (rd * 0x800 + x * 0x40 + c) / 0x40 == rd * 32 + x;
  }

  // Sign extension only fills the upper half.
  lemma ExtendedLow(x: Word)
    requires x < 0x8000 || x >= 0xffff_8000
    ensures Extended(x % 0x1_0000) == x
  {
  }

  lemma BranchBack(i: Instruction)
    requires WellCoded(i) && CodeOf(i.op).Branch?
    ensures Encode(i) < 0x1_0000_0000 && Decode(Encode(i)) == i
  {
    hide OpTable, SpecialTable, MainCode, SpecialCode, BranchCode, FormatTable, Decode, Extended;
    TableOfBranch(i.op);
    FirstTables();
    ExtendedLow(i.extra);
    Decoded(Encode(i), 1, i.rs, i.rt, i.extra % 0x1_0000);
  }

  lemma JumpBack(i: Instruction)
    requires WellCoded(i) && (i.op.J? || i.op.JAL?)
    ensures Encode(i) < 0x1_0000_0000 && Decode(Encode(i)) == i
  {
    hide OpTable, SpecialTable, CodeOf, FormatTable, Decode, Extended;
    JumpCodes();
    JumpTables();
    IndexParts(i.extra);
    Decoded(Encode(i), CodeOf(i.op).code, i.rs, i.rt, i.extra % 0x1_0000);
  }

  lemma JumpCodes()
    ensures CodeOf(J) == Main(2) && CodeOf(JAL) == Main(3)
  {
  }

  lemma IndexParts(x: Word)
    requires x < 0x400_0000
    ensures x == x / 0x20_0000 * 0x20_0000 + x / 0x1_0000 % 32 * 0x1_0000 + x % 0x1_0000
    ensures x / 0x20_0000 < 32 && x % 0x1_0000 / 0x800 == x / 0x800 % 32
  {
    var high, low := x / 0x1_0000, x % 0x1_0000;
    assert x / 0x20_0000 == high / 32;
    assert x / 0x800 == high * 32 + low / 0x800;
  }

  lemma ImmediateBack(i: Instruction)
    requires WellCoded(i) && CodeOf(i.op).Main? && !i.op.J? && !i.op.JAL?
    ensures Encode(i) < 0x1_0000_0000 && Decode(Encode(i)) == i
  {
    hide OpTable, SpecialTable, MainCode, SpecialCode, BranchCode, FormatTable, Decode, Extended;
    MainFits(i.op);
    TableOfMain(i.op);
    OnlySteps();
    ExtendedLow(i.extra);
    Decoded(Encode(i), CodeOf(i.op).code, i.rs, i.rt, i.extra % 0x1_0000);
  }

  // Decoding the word of an instruction gives the instruction.
  lemma DecodesBack(i: Instruction)
    requires WellCoded(i)
    ensures Encode(i) < 0x1_0000_0000 && Decode(Encode(i)) == i
  {
    hide CodeOf, Decode, Encode;
    match CodeOf(i.op)
    case Special(_) => SpecialBack(i);
    case Branch(_) => BranchBack(i);
    case Main(_) =>
      if i.op.J? || i.op.JAL? {
        JumpBack(i);
      } else {
        ImmediateBack(i);
      }
  }

  // Every word that decodes to an operation that is implemented is the word of
  // that instruction.
  lemma EncodesBack(w: Word)
    requires Decode(w).op != UNIMP && Decode(w).op != RES
    ensures WellCoded(Decode(w)) && Encode(Decode(w)) == w
  {
    hide Decode, WellCoded, Encode;
    var code := w / 0x400_0000;
    if code == 0 {
      SpecialWord(w);
    } else if code == 1 {
      BranchWord(w);
    } else if code < 4 {
      JumpWord(w);
    } else {
      ImmediateWord(w);
    }
  }

  lemma SpecialWord(w: Word)
    requires w / 0x400_0000 == 0 && Decode(w).op != UNIMP && Decode(w).op != RES
    ensures WellCoded(Decode(w)) && Encode(Decode(w)) == w
  {
    hide OpTable, SpecialTable, MainCode, SpecialCode, BranchCode, FormatTable, Decode, Extended;
    WordFields(w);
    Decoded(w, 0, w / 0x20_0000 % 32, w / 0x1_0000 % 32, w % 0x1_0000);
    FirstTables();
    SpecialOfTable(w % 0x1_0000 % 64);
    OneCode(Decode(w).op);
    LowParts(w % 0x1_0000);
  }

  lemma LowParts(low: nat)
    requires low < 0x1_0000
    ensures low == low / 0x800 * 0x800 + low / 0x40 % 32 * 0x40 + low % 64
    ensures low / 0x800 < 32
  {
  }

  lemma BranchWord(w: Word)
    requires w / 0x400_0000 == 1 && Decode(w).op != UNIMP && Decode(w).op != RES
    ensures WellCoded(Decode(w)) && Encode(Decode(w)) == w
  {
    hide OpTable, SpecialTable, MainCode, SpecialCode, BranchCode, FormatTable, Decode, Extended;
    WordFields(w);
    Decoded(w, 1, w / 0x20_0000 % 32, w / 0x1_0000 % 32, w % 0x1_0000);
    FirstTables();
    BranchOfTable(w / 0x1_0000 % 32);
    OneCode(Decode(w).op);
    ExtendedBack(w % 0x1_0000);
  }

  lemma JumpWord(w: Word)
    requires 2 <= w / 0x400_0000 < 4
    ensures WellCoded(Decode(w)) && Encode(Decode(w)) == w
  {
    hide WellCoded, Decode, Encode;
    WordFields(w);
    JumpFields(w, w / 0x400_0000, w / 0x20_0000 % 32, w / 0x1_0000 % 32, w % 0x1_0000);
  }

  lemma JumpFields(w: Word, code: nat, rs: nat, rt: nat, low: nat)
    requires Fields(w, code, rs, rt, low) && 2 <= code < 4
    ensures WellCoded(Decode(w)) && Encode(Decode(w)) == w
  {
    hide OpTable, SpecialTable, CodeOf, FormatTable, Decode, Extended;
    Decoded(w, code, rs, rt, low);
    JumpCodes();
    JumpTables();
    IndexOf(rs, rt, low);
  }

  lemma IndexOf(rs: nat, rt: nat, low: nat)
    requires rs < 32 && rt < 32 && low < 0x1_0000
    ensures var x := rs * 0x20_0000 + rt * 0x1_0000 + low;
            && x < 0x400_0000 && x / 0x20_0000 == rs && x / 0x1_0000 % 32 == rt && x / 0x800 % 32 == low / 0x800
  {
    assert (rs * 0x20_0000 + rt * 0x1_0000 + low) / 0x800 == (rs * 0x20 + rt) * 0x20 + low / 0x800;
  }

  lemma JumpTables()
    ensures OpTable(2) == J && OpTable(3) == JAL && FormatTable(2) == FormatTable(3) == JFMT
  {
  }

  lemma ImmediateWord(w: Word)
    requires w / 0x400_0000 >= 4 && Decode(w).op != UNIMP && Decode(w).op != RES
    ensures WellCoded(Decode(w)) && Encode(Decode(w)) == w
  {
    hide OpTable, SpecialTable, MainCode, SpecialCode, BranchCode, FormatTable, Decode, Extended;
    WordFields(w);
    Decoded(w, w / 0x400_0000, w / 0x20_0000 % 32, w / 0x1_0000 % 32, w % 0x1_0000);
    MainOfTable(w / 0x400_0000);
    JumpCodes();
    ExtendedBack(w % 0x1_0000);
  }

  lemma ExtendedBack(low: nat)
    requires low < 0x1_0000
    ensures Extended(low) % 0x1_0000 == low && (Extended(low) < 0x8000 || Extended(low) >= 0xffff_8000)
  {
  }
}
