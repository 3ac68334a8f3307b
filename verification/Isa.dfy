/**
 The instruction subset of the core as an instruction set: formats, decoding and the
 effect of one instruction on program counter, registers and memory. Nothing here
 knows of control signals or pipeline stages.
 */
module Isa {
  type Word = bv32
  type RegNo = bv5

  datatype AluFn = Add | Sub | And | Or | Xor | Sll | Srl | Sra

  datatype Instr =
    | Op(fn: AluFn, rd: RegNo, rs1: RegNo, rs2: RegNo)
    | OpImm(fn: AluFn, rd: RegNo, rs1: RegNo, imm: Word)
    | Load(rd: RegNo, rs1: RegNo, imm: Word)
    | Store(rs1: RegNo, rs2: RegNo, imm: Word)
    | Branch(onEqual: bool, rs1: RegNo, rs2: RegNo, imm: Word)
    | Jal(rd: RegNo, imm: Word)
    | Jalr(rd: RegNo, rs1: RegNo, imm: Word)
    | Unsupported

  // ----- Formats (section 2.2 and 2.3 of the RISC-V Unprivileged ISA) -----

  // The signed 12-bit, 13-bit and 21-bit ranges of immediates; branch and jump offsets
  // are even.
  predicate FitsI(imm: Word)
  {
    imm & 0xffff_f800 == 0 || imm & 0xffff_f800 == 0xffff_f800
  }

  predicate FitsB(imm: Word)
  {
    imm & 1 == 0 && (imm & 0xffff_f000 == 0 || imm & 0xffff_f000 == 0xffff_f000)
  }

  predicate FitsJ(imm: Word)
  {
    imm & 1 == 0 && (imm & 0xfff0_0000 == 0 || imm & 0xfff0_0000 == 0xfff0_0000)
  }

  predicate Encodable(i: Instr)
  {
    match i
    case Op(_, _, _, _) => true
    case OpImm(fn, _, _, imm) => (fn == Add || fn == Or) && FitsI(imm)
    case Load(_, _, imm) => FitsI(imm)
    case Store(_, _, imm) => FitsI(imm)
    case Branch(_, _, _, imm) => FitsB(imm)
    case Jal(_, imm) => FitsJ(imm)
    case Jalr(_, _, imm) => FitsI(imm)
    case Unsupported => false
  }

  function Funct3(fn: AluFn): Word
  {
    match fn
    case Add => 0
    case Sub => 0
    case Sll => 1
    case Xor => 4
    case Srl => 5
    case Sra => 5
    case Or => 6
    case And => 7
  }

  function Funct7(fn: AluFn): Word
  {
    if fn == Sub || fn == Sra then 0x20 else 0
  }

  function RType(f7: Word, rs2: RegNo, rs1: RegNo, f3: Word, rd: RegNo, opcode: Word): Word
  {
    (f7 << 25) | ((rs2 as Word) << 20) | ((rs1 as Word) << 15) | (f3 << 12) | ((rd as Word) << 7) | opcode
  }

  function IType(imm: Word, rs1: RegNo, f3: Word, rd: RegNo, opcode: Word): Word
  {
    (imm << 20) | ((rs1 as Word) << 15) | (f3 << 12) | ((rd as Word) << 7) | opcode
  }

  function SType(imm: Word, rs2: RegNo, rs1: RegNo, f3: Word, opcode: Word): Word
  {
    (((imm >> 5) & 0x7f) << 25) | ((rs2 as Word) << 20) | ((rs1 as Word) << 15) | (f3 << 12)
    | ((imm & 0x1f) << 7) | opcode
  }

  function BType(imm: Word, rs2: RegNo, rs1: RegNo, f3: Word, opcode: Word): Word
  {
    (((imm >> 12) & 1) << 31) | (((imm >> 5) & 0x3f) << 25) | ((rs2 as Word) << 20) | ((rs1 as Word) << 15)
    | (f3 << 12) | (((imm >> 1) & 0xf) << 8) | (((imm >> 11) & 1) << 7) | opcode
  }

  function JType(imm: Word, rd: RegNo, opcode: Word): Word
  {
    (((imm >> 20) & 1) << 31) | (((imm >> 1) & 0x3ff) << 21) | (((imm >> 11) & 1) << 20)
    | (((imm >> 12) & 0xff) << 12) | ((rd as Word) << 7) | opcode
  }

  function Assemble(i: Instr): Word
    requires Encodable(i)
  {
    match i
    case Op(fn, rd, rs1, rs2) => RType(Funct7(fn), rs2, rs1, Funct3(fn), rd, 0x33)
    case OpImm(fn, rd, rs1, imm) => IType(imm, rs1, Funct3(fn), rd, 0x13)
    case Load(rd, rs1, imm) => IType(imm, rs1, 2, rd, 0x03)
    case Store(rs1, rs2, imm) => SType(imm, rs2, rs1, 2, 0x23)
    case Branch(onEqual, rs1, rs2, imm) => BType(imm, rs2, rs1, if onEqual then 0 else 1, 0x63)
    case Jal(rd, imm) => JType(imm, rd, 0x6f)
    case Jalr(rd, rs1, imm) => IType(imm, rs1, 0, rd, 0x67)
  }

  // ----- Decoding -----

  function Opcode(ins: Word): Word { ins & 0x7f }
  function F3(ins: Word): Word { (ins >> 12) & 7 }
  function F7(ins: Word): Word { ins >> 25 }
  function Rd(ins: Word): RegNo { ((ins >> 7) & 0x1f) as RegNo }
  function Rs1(ins: Word): RegNo { ((ins >> 15) & 0x1f) as RegNo }
  function Rs2(ins: Word): RegNo { ((ins >> 20) & 0x1f) as RegNo }

  // All ones when the sign bit of the instruction is set.
  function Sign(ins: Word): Word
  {
    if ins & 0x8000_0000 != 0 then 0xffff_ffff else 0
  }

  function ImmI(ins: Word): Word { (Sign(ins) << 12) | (ins >> 20) }

  function ImmS(ins: Word): Word { (Sign(ins) << 12) | ((ins >> 25) << 5) | ((ins >> 7) & 0x1f) }

  function ImmB(ins: Word): Word
  {
    (Sign(ins) << 12) | (((ins >> 7) & 1) << 11) | (((ins >> 25) & 0x3f) << 5) | (((ins >> 8) & 0xf) << 1)
  }

  function ImmJ(ins: Word): Word
  {
    (Sign(ins) << 20) | (((ins >> 12) & 0xff) << 12) | (((ins >> 20) & 1) << 11) | (((ins >> 21) & 0x3ff) << 1)
  }

  function DecodeOp(f3: Word, f7: Word): (fn: (bool, AluFn))
  {
    if f3 == 0 && f7 == 0 then (true, Add)
    else if f3 == 0 && f7 == 0x20 then (true, Sub)
    else if f3 == 1 && f7 == 0 then (true, Sll)
    else if f3 == 4 && f7 == 0 then (true, Xor)
    else if f3 == 5 && f7 == 0 then (true, Srl)
    else if f3 == 5 && f7 == 0x20 then (true, Sra)
    else if f3 == 6 && f7 == 0 then (true, Or)
    else if f3 == 7 && f7 == 0 then (true, And)
    else (false, Add)
  }

  function Decode(ins: Word): Instr
  {
    var f3 := F3(ins);
    if Opcode(ins) == 0x33 then
      var (ok, fn) := DecodeOp(f3, F7(ins));
      if ok then Op(fn, Rd(ins), Rs1(ins), Rs2(ins)) else Unsupported
    else if Opcode(ins) == 0x13 then
      if f3 == 0 then OpImm(Add, Rd(ins), Rs1(ins), ImmI(ins))
      else if f3 == 6 then OpImm(Or, Rd(ins), Rs1(ins), ImmI(ins))
      else Unsupported
    else if Opcode(ins) == 0x03 then
      if f3 == 2 then Load(Rd(ins), Rs1(ins), ImmI(ins)) else Unsupported
    else if Opcode(ins) == 0x23 then
      if f3 == 2 then Store(Rs1(ins), Rs2(ins), ImmS(ins)) else Unsupported
    else if Opcode(ins) == 0x63 then
      if f3 == 0 then Branch(true, Rs1(ins), Rs2(ins), ImmB(ins))
      else if f3 == 1 then Branch(false, Rs1(ins), Rs2(ins), ImmB(ins))
      else Unsupported
    else if Opcode(ins) == 0x6f then Jal(Rd(ins), ImmJ(ins))
    else if Opcode(ins) == 0x67 then
      if f3 == 0 then Jalr(Rd(ins), Rs1(ins), ImmI(ins)) else Unsupported
    else Unsupported
  }

  // Decoding inverts assembling, ...
  lemma DecodeAssemble(i: Instr)
    requires Encodable(i)
    ensures Decode(Assemble(i)) == i
  {
    match i {
      case Op(fn, rd, rs1, rs2) => RFields(Funct7(fn), rs2, rs1, Funct3(fn), rd, 0x33);
      case OpImm(fn, rd, rs1, imm) => IFields(imm, rs1, Funct3(fn), rd, 0x13);
      case Load(rd, rs1, imm) => IFields(imm, rs1, 2, rd, 0x03);
      case Store(rs1, rs2, imm) => SFields(imm, rs2, rs1, 2, 0x23);
      case Branch(onEqual, rs1, rs2, imm) => BFields(imm, rs2, rs1, if onEqual then 0 else 1, 0x63);
      case Jal(rd, imm) => JFields(imm, rd, 0x6f);
      case Jalr(rd, rs1, imm) => IFields(imm, rs1, 0, rd, 0x67);
    }
  }

  lemma RFields(f7: Word, rs2: RegNo, rs1: RegNo, f3: Word, rd: RegNo, opcode: Word)
    requires f7 <= 0x7f && f3 <= 7 && opcode <= 0x7f
    ensures var w := RType(f7, rs2, rs1, f3, rd, opcode);
            && Opcode(w) == opcode && F3(w) == f3 && F7(w) == f7
            && Rd(w) == rd && Rs1(w) == rs1 && Rs2(w) == rs2
  {
  }

  lemma IFields(imm: Word, rs1: RegNo, f3: Word, rd: RegNo, opcode: Word)
    requires FitsI(imm) && f3 <= 7 && opcode <= 0x7f
    ensures var w := IType(imm, rs1, f3, rd, opcode);
            && Opcode(w) == opcode && F3(w) == f3 && Rd(w) == rd && Rs1(w) == rs1 && ImmI(w) == imm
  {
  }

  lemma SFields(imm: Word, rs2: RegNo, rs1: RegNo, f3: Word, opcode: Word)
    requires FitsI(imm) && f3 <= 7 && opcode <= 0x7f
    ensures var w := SType(imm, rs2, rs1, f3, opcode);
            && Opcode(w) == opcode && F3(w) == f3 && Rs1(w) == rs1 && Rs2(w) == rs2 && ImmS(w) == imm
  {
  }

  lemma BFields(imm: Word, rs2: RegNo, rs1: RegNo, f3: Word, opcode: Word)
    requires FitsB(imm) && f3 <= 7 && opcode <= 0x7f
    ensures var w := BType(imm, rs2, rs1, f3, opcode);
            && Opcode(w) == opcode && F3(w) == f3 && Rs1(w) == rs1 && Rs2(w) == rs2 && ImmB(w) == imm
  {
  }

  lemma JFields(imm: Word, rd: RegNo, opcode: Word)
    requires FitsJ(imm) && opcode <= 0x7f
    ensures var w := JType(imm, rd, opcode);
            Opcode(w) == opcode && Rd(w) == rd && ImmJ(w) == imm
  {
  }

  // ... and assembling inverts decoding: the subset has one encoding per instruction.
  lemma AssembleDecode(ins: Word)
    requires !Decode(ins).Unsupported?
    ensures Encodable(Decode(ins)) && Assemble(Decode(ins)) == ins
  {
    hide RType, IType, SType, BType, JType, FitsI, FitsB, FitsJ, ImmI, ImmS, ImmB, ImmJ, Rd, Rs1, Rs2, F3, F7, Opcode;
    RAgain(ins);
    IAgain(ins);
    SAgain(ins);
    BAgain(ins);
    JAgain(ins);
  }

  lemma RAgain(ins: Word)
    ensures RType(F7(ins), Rs2(ins), Rs1(ins), F3(ins), Rd(ins), Opcode(ins)) == ins
  {
  }

  lemma IAgain(ins: Word)
    ensures FitsI(ImmI(ins)) && IType(ImmI(ins), Rs1(ins), F3(ins), Rd(ins), Opcode(ins)) == ins
  {
  }

  lemma SAgain(ins: Word)
    ensures FitsI(ImmS(ins)) && SType(ImmS(ins), Rs2(ins), Rs1(ins), F3(ins), Opcode(ins)) == ins
  {
    hide ImmS, FitsI, Rs1, Rs2, F3, Opcode;
    SBits(ins);
    SJoin(ins);
  }

  lemma SBits(ins: Word)
    ensures var imm := ImmS(ins);
            FitsI(imm) && (imm >> 5) & 0x7f == ins >> 25 && imm & 0x1f == (ins >> 7) & 0x1f
  {
  }

  lemma SJoin(ins: Word)
    ensures ((ins >> 25) << 25) | ((Rs2(ins) as Word) << 20) | ((Rs1(ins) as Word) << 15) | (F3(ins) << 12)
            | (((ins >> 7) & 0x1f) << 7) | Opcode(ins) == ins
  {
  }

  lemma BAgain(ins: Word)
    ensures FitsB(ImmB(ins)) && BType(ImmB(ins), Rs2(ins), Rs1(ins), F3(ins), Opcode(ins)) == ins
  {
    hide ImmB, FitsB, Rs1, Rs2, F3, Opcode;
    BBits(ins);
    BJoin(ins);
  }

  lemma BJoin(ins: Word)
    ensures ((ins >> 31) << 31) | (((ins >> 25) & 0x3f) << 25) | ((Rs2(ins) as Word) << 20)
            | ((Rs1(ins) as Word) << 15) | (F3(ins) << 12) | (((ins >> 8) & 0xf) << 8) | (((ins >> 7) & 1) << 7)
            | Opcode(ins) == ins
  {
  }

  lemma BBits(ins: Word)
    ensures var imm := ImmB(ins);
            && FitsB(imm)
            && (imm >> 12) & 1 == ins >> 31 && (imm >> 5) & 0x3f == (ins >> 25) & 0x3f
            && (imm >> 1) & 0xf == (ins >> 8) & 0xf && (imm >> 11) & 1 == (ins >> 7) & 1
  {
  }

  lemma JAgain(ins: Word)
    ensures FitsJ(ImmJ(ins)) && JType(ImmJ(ins), Rd(ins), Opcode(ins)) == ins
  {
    hide ImmJ, FitsJ, Rd, Opcode;
    JBits(ins);
    JJoin(ins);
  }

  lemma JJoin(ins: Word)
    ensures ((ins >> 31) << 31) | (((ins >> 21) & 0x3ff) << 21) | (((ins >> 20) & 1) << 20)
            | (((ins >> 12) & 0xff) << 12) | ((Rd(ins) as Word) << 7) | Opcode(ins) == ins
  {
  }

  lemma JBits(ins: Word)
    ensures var imm := ImmJ(ins);
            && FitsJ(imm)
            && (imm >> 20) & 1 == ins >> 31 && (imm >> 1) & 0x3ff == (ins >> 21) & 0x3ff
            && (imm >> 11) & 1 == (ins >> 20) & 1 && (imm >> 12) & 0xff == (ins >> 12) & 0xff
  {
  }

  // ----- Execution -----

  const MEM_WORDS: nat := 1024

  datatype Arch = Arch(pc: Word, regs: seq<Word>, mem: seq<Word>) {
    ghost predicate Valid()
    {
      |regs| == 32 && |mem| == MEM_WORDS && regs[0] == 0
    }
  }

  // Both memories decode address bits 11 to 2 only.
  function WordIndex(addr: Word): (i: nat)
    ensures i < MEM_WORDS
  {
    ((addr >> 2) & 0x3ff) as nat
  }

  function ReadReg(regs: seq<Word>, r: RegNo): Word
    requires |regs| == 32
  {
    if r == 0 then 0 else regs[r as nat]
  }

  function WriteReg(regs: seq<Word>, r: RegNo, v: Word): (regs': seq<Word>)
    requires |regs| == 32
    ensures |regs'| == 32 && (regs[0] == 0 ==> regs'[0] == 0)
    ensures forall q: RegNo :: ReadReg(regs', q) == if q == r && r != 0 then v else ReadReg(regs, q)
  {
    if r == 0 then regs else regs[r as nat := v]
  }

  // Shifts by an amount that fits in five bits.
  function ShiftLeft(a: Word, n: Word): Word
    requires n <= 31
  {
    a << n
  }

  function ShiftRight(a: Word, n: Word): Word
    requires n <= 31
  {
    a >> n
  }

  function LowFive(b: Word): (n: Word)
    ensures n <= 31
  {
    b & 0x1f
  }

  function Alu(fn: AluFn, a: Word, b: Word): Word
  {
    match fn
    case Add => a + b
    case Sub => a - b
    case And => a & b
    case Or => a | b
    case Xor => a ^ b
    case Sll => ShiftLeft(a, LowFive(b))
    case Srl => ShiftRight(a, LowFive(b))
    case Sra =>
      if a & 0x8000_0000 == 0 then ShiftRight(a, LowFive(b)) else !ShiftRight(!a, LowFive(b))
  }

  function PcPlus4(pc: Word): Word { pc + 4 }

  function Offset(base: Word, imm: Word): Word { base + imm }

  function ClearBit0(a: Word): Word { a & 0xffff_fffe }

  // ----- Addresses and shifts -----

  // The first four addresses are in word 0, and four bytes further is the next word of the
  // memory, which wraps; so a word is four bytes and the memory has MEM_WORDS of them.
  lemma WordsInOrder(pc: Word)
    ensures pc < 4 ==> WordIndex(pc) == 0
    ensures WordIndex(PcPlus4(pc)) == if WordIndex(pc) == MEM_WORDS - 1 then 0 else WordIndex(pc) + 1
  {
  }

  // Bytes of one word differ in the lowest two bits only.
  lemma WordsAligned(a: Word, b: Word)
    requires a ^ b < 4
    ensures WordIndex(a) == WordIndex(b)
  {
  }

  // An offset is a distance: forwards, and backwards as its two's complement.
  lemma OffsetCounts(base: Word, imm: Word)
    ensures Offset(base, 0) == base && Offset(base, imm + 1) == Offset(base, imm) + 1
    ensures Offset(Offset(base, imm), 0 - imm) == base
  {
  }

  // The next address is the one four bytes on.
  lemma PcAdvances(pc: Word)
    ensures PcPlus4(pc) == Offset(pc, 4) == pc + 4
  {
  }

  // The even address at a or just below it.
  lemma ClearBit0Even(a: Word)
    ensures ClearBit0(a) & 1 == 0 && (ClearBit0(a) == a || ClearBit0(a) + 1 == a)
  {
  }

  // Every place to the left doubles, every place to the right halves.
  lemma ShiftsByOne(a: Word, n: Word)
    requires n < 31
    ensures ShiftLeft(a, 0) == a == ShiftRight(a, 0)
    ensures ShiftLeft(a, n + 1) == Doubled(ShiftLeft(a, n))
    ensures ShiftRight(a, n + 1) == Halved(ShiftRight(a, n))
  {
    hide ShiftLeft, ShiftRight, Doubled, Halved;
    ShiftsByNone(a);
    LeftByOne(a, n);
    RightByOne(a, n);
  }

  lemma ShiftsByNone(a: Word)
    ensures ShiftLeft(a, 0) == a == ShiftRight(a, 0)
  {
  }

  lemma LeftByOne(a: Word, n: Word)
    requires n < 31
    ensures ShiftLeft(a, n + 1) == Doubled(ShiftLeft(a, n))
  {
    hide ShiftLeft, Doubled, OneLeft;
    LeftOnce(a, n);
    TwiceIsShift(ShiftLeft(a, n));
  }

  function OneLeft(x: Word): Word { x << 1 }

  lemma LeftOnce(a: Word, n: Word)
    requires n < 31
    ensures ShiftLeft(a, n + 1) == OneLeft(ShiftLeft(a, n))
  {
  }

  lemma RightByOne(a: Word, n: Word)
    requires n < 31
    ensures ShiftRight(a, n + 1) == Halved(ShiftRight(a, n))
  {
  }

  function Doubled(x: Word): Word { x + x }

  function Halved(x: Word): Word { x >> 1 }

  lemma TwiceIsShift(x: Word)
    ensures OneLeft(x) == Doubled(x)
  {
  }

  // Halving drops the lowest bit.
  lemma HalfAndBit(x: Word)
    ensures x == Doubled(Halved(x)) + (x & 1) && Halved(x) < 0x8000_0000
  {
  }

  // The shift amount is the remainder by 32.
  lemma LowFiveRemains(b: Word)
    ensures LowFive(b) < 32 && (b - LowFive(b)) & 0x1f == 0
  {
  }

  // The effect of one instruction. An unsupported one has none but to be passed over.
  function Exec(i: Instr, s: Arch): Arch
    requires |s.regs| == 32 && |s.mem| == MEM_WORDS
  {
    var next := PcPlus4(s.pc);
    match i
    case Op(fn, rd, rs1, rs2) =>
      s.(pc := next, regs := WriteReg(s.regs, rd, Alu(fn, ReadReg(s.regs, rs1), ReadReg(s.regs, rs2))))
    case OpImm(fn, rd, rs1, imm) =>
      s.(pc := next, regs := WriteReg(s.regs, rd, Alu(fn, ReadReg(s.regs, rs1), imm)))
    case Load(rd, rs1, imm) =>
      s.(pc := next, regs := WriteReg(s.regs, rd, s.mem[WordIndex(Offset(ReadReg(s.regs, rs1), imm))]))
    case Store(rs1, rs2, imm) =>
      s.(pc := next, mem := s.mem[WordIndex(Offset(ReadReg(s.regs, rs1), imm)) := ReadReg(s.regs, rs2)])
    case Branch(onEqual, rs1, rs2, imm) =>
      s.(pc := if (ReadReg(s.regs, rs1) == ReadReg(s.regs, rs2)) == onEqual then Offset(s.pc, imm) else next)
    case Jal(rd, imm) =>
      s.(pc := Offset(s.pc, imm), regs := WriteReg(s.regs, rd, next))
    case Jalr(rd, rs1, imm) =>
      s.(pc := ClearBit0(Offset(ReadReg(s.regs, rs1), imm)), regs := WriteReg(s.regs, rd, next))
    case Unsupported =>
      s.(pc := next)
  }

  // One instruction fetched from the program memory and executed.
  function Step(imem: seq<Word>, s: Arch): (s': Arch)
    requires |imem| == MEM_WORDS && s.Valid()
    ensures s'.Valid()
  {
    Exec(Decode(imem[WordIndex(s.pc)]), s)
  }

  function Steps(imem: seq<Word>, s: Arch, n: nat): (s': Arch)
    requires |imem| == MEM_WORDS && s.Valid()
    ensures s'.Valid()
  {
    if n == 0 then s else Step(imem, Steps(imem, s, n - 1))
  }
}
