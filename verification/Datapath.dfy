/**
 The combinational blocks of the core: decoder, immediate generator and ALU, with the
 control encodings of the RTL; and what they compute in terms of the instruction set.
 */
module Datapath {
  import opened Isa

  // ctrl_signal_def.v
  const ALU_ADD: bv4 := 0
  const ALU_SUB: bv4 := 1
  const ALU_AND: bv4 := 2
  const ALU_OR: bv4 := 3
  const ALU_SLL: bv4 := 4
  const ALU_SRL: bv4 := 5
  const ALU_XOR: bv4 := 6
  const ALU_SRA: bv4 := 7

  const IMM_I: bv3 := 0
  const IMM_S: bv3 := 1
  const IMM_B: bv3 := 2
  const IMM_J: bv3 := 3

  const WB_ALU: bv2 := 0
  const WB_MEM: bv2 := 1
  const WB_PC4: bv2 := 2

  const BR_NONE: bv2 := 0
  const BR_EQ: bv2 := 1
  const BR_NE: bv2 := 2

  const JMP_NONE: bv2 := 0
  const JMP_JAL: bv2 := 1
  const JMP_JALR: bv2 := 2

  // ----- ALU.v -----

  // One adder serves addition and subtraction: for the latter, B is inverted and the
  // carry set.
  function Adder(a: Word, b: Word, subSel: bool): Word
  {
    a + (b ^ (if subSel then 0xffff_ffff else 0)) + (if subSel then 1 else 0)
  }

  // That r is what the adder puts out.
  predicate AdderOut(a: Word, b: Word, subSel: bool, r: Word)
  {
    r == a + (b ^ (if subSel then 0xffff_ffff else 0)) + (if subSel then 1 else 0)
  }

  // Adding the inverted operand and the carry is subtracting.
  lemma AdderSubtracts(a: Word, b: Word)
    ensures Adder(a, b, true) == a - b
  {
    hide Adder, AdderOut;
    AdderIsOut(a, b, true);
    DifferenceIsOut(a, b);
    OneOut(a, b, true, Adder(a, b, true), a - b);
  }

  lemma AdderAdds(a: Word, b: Word)
    ensures Adder(a, b, false) == a + b
  {
    hide Adder, AdderOut;
    AdderIsOut(a, b, false);
    SumIsOut(a, b);
    OneOut(a, b, false, Adder(a, b, false), a + b);
  }

  lemma AdderIsOut(a: Word, b: Word, subSel: bool)
    ensures AdderOut(a, b, subSel, Adder(a, b, subSel))
  {
  }

  lemma DifferenceIsOut(a: Word, b: Word)
    ensures AdderOut(a, b, true, a - b)
  {
  }

  lemma SumIsOut(a: Word, b: Word)
    ensures AdderOut(a, b, false, a + b)
  {
  }

  lemma OneOut(a: Word, b: Word, subSel: bool, r: Word, r': Word)
    requires AdderOut(a, b, subSel, r) && AdderOut(a, b, subSel, r')
    ensures r == r'
  {
  }

  function AluResult(a: Word, b: Word, op: bv4): Word
  {
    var adderSum := Adder(a, b, op == ALU_SUB);
    var shift := LowFive(b);
    if op == ALU_ADD || op == ALU_SUB then adderSum
    else if op == ALU_AND then a & b
    else if op == ALU_OR then a | b
    else if op == ALU_XOR then a ^ b
    else if op == ALU_SLL then ShiftLeft(a, shift)
    else if op == ALU_SRL then ShiftRight(a, shift)
    else if op == ALU_SRA then
      ShiftRight(a, shift) | (if a & 0x8000_0000 != 0 then !ShiftRight(0xffff_ffff, shift) else 0)
    else 0
  }

  function AluCode(fn: AluFn): bv4
  {
    match fn
    case Add => ALU_ADD
    case Sub => ALU_SUB
    case And => ALU_AND
    case Or => ALU_OR
    case Xor => ALU_XOR
    case Sll => ALU_SLL
    case Srl => ALU_SRL
    case Sra => ALU_SRA
  }

  // Filling the vacated bits with ones is shifting the complement.
  lemma SignFill(a: Word, shift: Word)
    requires shift <= 31
    ensures ShiftRight(a, shift) | !ShiftRight(0xffff_ffff, shift) == !ShiftRight(!a, shift)
  {
    hide ShiftRight, Complements;
    ShiftInverted(a, shift);
    MaskInverted(ShiftRight(!a, shift), ShiftRight(0xffff_ffff, shift), ShiftRight(a, shift));
  }

  lemma {:induction false} ShiftInverted(a: Word, shift: Word)
    requires shift <= 31
    ensures Complements(ShiftRight(!a, shift), ShiftRight(0xffff_ffff, shift), ShiftRight(a, shift))
    decreases shift
  {
    hide ShiftRight, Halved, Complements;
    ShiftNone(a);
    if shift > 0 {
      var n := shift - 1;
      ShiftInverted(a, n);
      RightByOne(!a, n);
      RightByOne(a, n);
      RightByOne(0xffff_ffff, n);
      InvertThenHalve(ShiftRight(!a, n), ShiftRight(0xffff_ffff, n), ShiftRight(a, n));
    }
  }

  // y is the complement of x within the mask m.
  predicate Complements(y: Word, m: Word, x: Word)
  {
    y == m ^ x && x & !m == 0
  }

  lemma ShiftNone(a: Word)
    ensures Complements(ShiftRight(!a, 0), ShiftRight(0xffff_ffff, 0), ShiftRight(a, 0))
  {
  }

  lemma InvertThenHalve(y: Word, m: Word, x: Word)
    requires Complements(y, m, x)
    ensures Complements(Halved(y), Halved(m), Halved(x))
  {
  }

  lemma MaskInverted(y: Word, m: Word, x: Word)
    requires Complements(y, m, x)
    ensures x | !m == !y
  {
  }

  // The shared adder and the shifters compute the arithmetic of the instruction set.
  lemma AluComputes(fn: AluFn, a: Word, b: Word)
    ensures AluResult(a, b, AluCode(fn)) == Alu(fn, a, b)
  {
    if fn.Add? || fn.Sub? {
      AluAdder(a, b);
    } else if fn.Sra? {
      AluSra(a, b);
    } else {
      hide ShiftLeft, ShiftRight, LowFive, Adder;
    }
  }

  lemma AluAdder(a: Word, b: Word)
    ensures AluResult(a, b, ALU_ADD) == Alu(Add, a, b)
    ensures AluResult(a, b, ALU_SUB) == Alu(Sub, a, b)
  {
    AdderAdds(a, b);
    AdderSubtracts(a, b);
    hide ShiftLeft, ShiftRight, LowFive, Adder;
  }

  lemma AluSra(a: Word, b: Word)
    ensures AluResult(a, b, ALU_SRA) == Alu(Sra, a, b)
  {
    hide ShiftRight, LowFive;
    SignFill(a, LowFive(b));
  }

  // ----- ImmGen.v -----

  function ImmGen(ins: Word, immSel: bv3): Word
  {
    var s := (ins >> 31) & 1;
    var fill: Word := if s == 1 then 0xffff_ffff else 0;
    if immSel == IMM_I then (fill << 12) | ((ins >> 20) & 0xfff)
    else if immSel == IMM_S then (fill << 12) | (((ins >> 25) & 0x7f) << 5) | ((ins >> 7) & 0x1f)
    else if immSel == IMM_B then
      (fill << 13) | (s << 12) | (((ins >> 7) & 1) << 11) | (((ins >> 25) & 0x3f) << 5)
      | (((ins >> 8) & 0xf) << 1)
    else if immSel == IMM_J then
      (fill << 21) | (s << 20) | (((ins >> 12) & 0xff) << 12) | (((ins >> 20) & 1) << 11)
      | (((ins >> 21) & 0x3ff) << 1)
    else 0
  }

  lemma ImmGenI(ins: Word)
    ensures ImmGen(ins, IMM_I) == ImmI(ins)
  {
  }

  lemma ImmGenS(ins: Word)
    ensures ImmGen(ins, IMM_S) == ImmS(ins)
  {
  }

  lemma ImmGenB(ins: Word)
    ensures ImmGen(ins, IMM_B) == ImmB(ins)
  {
  }

  lemma ImmGenJ(ins: Word)
    ensures ImmGen(ins, IMM_J) == ImmJ(ins)
  {
  }

  // ----- Decoder.v -----

  datatype Control = Control(regWrite: bool, memWrite: bool, memRead: bool, useImm: bool, wbSel: bv2,
                             immSel: bv3, branchType: bv2, jumpType: bv2, aluOp: bv4, illegal: bool)

  const IDLE := Control(false, false, false, false, WB_ALU, IMM_I, BR_NONE, JMP_NONE, ALU_ADD, false)

  // An illegal word keeps its immediate format but raises no other signal.
  function Illegal(immSel: bv3): Control
  {
    IDLE.(immSel := immSel, illegal := true)
  }

  function DecodeControl(ins: Word): Control
  {
    var opcode, funct3, funct7 := Opcode(ins), F3(ins), F7(ins);
    if opcode == 0x33 then
      var c := IDLE.(regWrite := true);
      if funct3 == 0 then
        if funct7 == 0 then c.(aluOp := ALU_ADD)
        else if funct7 == 0x20 then c.(aluOp := ALU_SUB)
        else Illegal(IMM_I)
      else if funct3 == 7 then if funct7 == 0 then c.(aluOp := ALU_AND) else Illegal(IMM_I)
      else if funct3 == 6 then if funct7 == 0 then c.(aluOp := ALU_OR) else Illegal(IMM_I)
      else if funct3 == 1 then if funct7 == 0 then c.(aluOp := ALU_SLL) else Illegal(IMM_I)
      else if funct3 == 4 then if funct7 == 0 then c.(aluOp := ALU_XOR) else Illegal(IMM_I)
      else if funct3 == 5 then
        if funct7 == 0 then c.(aluOp := ALU_SRL)
        else if funct7 == 0x20 then c.(aluOp := ALU_SRA)
        else Illegal(IMM_I)
      else Illegal(IMM_I)
    else if opcode == 0x13 then
      var c := IDLE.(regWrite := true, useImm := true, immSel := IMM_I);
      if funct3 == 0 then c.(aluOp := ALU_ADD)
      else if funct3 == 6 then c.(aluOp := ALU_OR)
      else Illegal(IMM_I)
    else if opcode == 0x03 then
      if funct3 != 2 then Illegal(IMM_I)
      else IDLE.(useImm := true, memRead := true, regWrite := true, immSel := IMM_I, wbSel := WB_MEM)
    else if opcode == 0x23 then
      if funct3 != 2 then Illegal(IMM_S)
      else IDLE.(useImm := true, memWrite := true, immSel := IMM_S)
    else if opcode == 0x63 then
      if funct3 == 0 then IDLE.(immSel := IMM_B, branchType := BR_EQ)
      else if funct3 == 1 then IDLE.(immSel := IMM_B, branchType := BR_NE)
      else Illegal(IMM_B)
    else if opcode == 0x6f then
      IDLE.(regWrite := true, wbSel := WB_PC4, immSel := IMM_J, jumpType := JMP_JAL)
    else if opcode == 0x67 then
      if funct3 == 0 then
        IDLE.(regWrite := true, wbSel := WB_PC4, immSel := IMM_I, jumpType := JMP_JALR, useImm := true)
      else Illegal(IMM_I)
    else Illegal(IMM_I)
  }

  // The control signals an instruction needs.
  function ControlFor(i: Instr): Control
  {
    match i
    case Op(fn, _, _, _) => IDLE.(regWrite := true, aluOp := AluCode(fn))
    case OpImm(fn, _, _, _) => IDLE.(regWrite := true, useImm := true, aluOp := AluCode(fn))
    case Load(_, _, _) => IDLE.(regWrite := true, useImm := true, memRead := true, wbSel := WB_MEM)
    case Store(_, _, _) => IDLE.(useImm := true, memWrite := true, immSel := IMM_S)
    case Branch(onEqual, _, _, _) => IDLE.(immSel := IMM_B, branchType := if onEqual then BR_EQ else BR_NE)
    case Jal(_, _) => IDLE.(regWrite := true, wbSel := WB_PC4, immSel := IMM_J, jumpType := JMP_JAL)
    case Jalr(_, _, _) =>
      IDLE.(regWrite := true, wbSel := WB_PC4, jumpType := JMP_JALR, useImm := true)
    case Unsupported => IDLE.(illegal := true)
  }

  // The decoder raises exactly the signals of the instruction that the word encodes;
  // it flags a word as illegal just when no instruction of the subset encodes to it.
  lemma DecoderDecodes(ins: Word)
    ensures DecodeControl(ins).illegal <==> Decode(ins).Unsupported?
    ensures !DecodeControl(ins).illegal ==> DecodeControl(ins) == ControlFor(Decode(ins))
    ensures DecodeControl(ins).illegal ==>
              DecodeControl(ins).(immSel := IMM_I) == ControlFor(Unsupported)
  {
    hide DecodeControl, Decode;
    if Opcode(ins) == 0x33 {
      RegisterWords(ins);
    } else {
      OtherWords(ins);
    }
  }

  ghost predicate DecodedAlike(ins: Word)
  {
    var c, i := DecodeControl(ins), Decode(ins);
    if i.Unsupported? then c.(immSel := IMM_I) == ControlFor(Unsupported) else c == ControlFor(i)
  }

  lemma RegisterWords(ins: Word)
    requires Opcode(ins) == 0x33
    ensures DecodedAlike(ins)
  {
    hide Opcode, F3, F7, Rd, Rs1, Rs2;
  }

  lemma OtherWords(ins: Word)
    requires Opcode(ins) != 0x33
    ensures DecodedAlike(ins)
  {
    hide Opcode, F3, F7, Rd, Rs1, Rs2, ImmI, ImmS, ImmB, ImmJ;
  }
}
