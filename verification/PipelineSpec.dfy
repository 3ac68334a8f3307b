/**
 One clock cycle of the three-stage core as a function on its registers: the wires of
 the top module, and what each clocked block holds after the edge.
 */
module PipelineSpec {
  import opened Isa
  import opened Datapath

  const RESET_PC: Word := 0
  const NOP_INSTR: Word := 0x13

  datatype Pipe = Pipe(
    pc: Word,                                                    // PC
    ins: Word,                                                   // IM, registered read
    reqValid: bool, reqPc: Word,                                 // IM request registers
    ifValid: bool, ifPc: Word, ifPc4: Word, ifIns: Word,         // IF_ID
    wbValid: bool, wbRegWrite: bool, wbSel: bv2, wbRd: RegNo,    // WB registers
    wbPc4: Word, wbAlu: Word,
    regs: seq<Word>,                                             // RF
    mem: seq<Word>, rd: Word)                                    // DM, registered read

  ghost predicate Sized(imem: seq<Word>, p: Pipe)
  {
    |imem| == MEM_WORDS && |p.regs| == 32 && |p.mem| == MEM_WORDS
  }

  // ----- Wires -----

  function WbData(p: Pipe): Word
  {
    if p.wbSel == WB_MEM then p.rd else if p.wbSel == WB_PC4 then p.wbPc4 else p.wbAlu
  }

  predicate RfWe(p: Pipe)
  {
    p.wbValid && p.wbRegWrite
  }

  // The WB stage is about to write the register that EX reads; never x0.
  predicate ForwardHit(p: Pipe, rs: RegNo)
  {
    p.wbValid && p.wbRegWrite && p.wbRd != 0 && p.wbRd == rs
  }

  function Operand(p: Pipe, rs: RegNo): Word
    requires |p.regs| == 32
  {
    if ForwardHit(p, rs) then WbData(p) else ReadReg(p.regs, rs)
  }

  datatype Wires = Wires(control: Control, stageValid: bool, operandA: Word, operandB: Word,
                         imm: Word, alu: Word, redirect: bool, redirectPc: Word)

  function Execute(p: Pipe): Wires
    requires |p.regs| == 32
  {
    var c := DecodeControl(p.ifIns);
    var stageValid := p.ifValid && !c.illegal;
    var a := Operand(p, Rs1(p.ifIns));
    var b := Operand(p, Rs2(p.ifIns));
    var imm := ImmGen(p.ifIns, c.immSel);
    var alu := AluResult(a, if c.useImm then imm else b, c.aluOp);
    var branchTaken := stageValid && ((c.branchType == BR_EQ && a == b) || (c.branchType == BR_NE && a != b));
    var jumpTaken := stageValid && c.jumpType != JMP_NONE;
    Wires(c, stageValid, a, b, imm, alu, branchTaken || jumpTaken,
          if c.jumpType == JMP_JALR then ClearBit0(Offset(a, imm)) else Offset(p.ifPc, imm))
  }

  // ----- Clocked blocks -----

  // RF: the write port, then x0 is cleared.
  function RfNext(regs: seq<Word>, we: bool, wr: RegNo, wd: Word): (regs': seq<Word>)
    requires |regs| == 32
    ensures |regs'| == 32
  {
    (if we && wr != 0 then regs[wr as nat := wd] else regs)[0 := 0]
  }

  function MemNext(mem: seq<Word>, we: bool, addr: Word, wd: Word): (mem': seq<Word>)
    requires |mem| == MEM_WORDS
    ensures |mem'| == MEM_WORDS
  {
    if we then mem[WordIndex(addr) := wd] else mem
  }

  function RdNext(mem: seq<Word>, rd: Word, re: bool, we: bool, addr: Word): Word
    requires |mem| == MEM_WORDS
  {
    if re && !we then mem[WordIndex(addr)] else rd
  }

  // The state after a rising clock edge, given the wires before it.
  function Edge(imem: seq<Word>, p: Pipe, w: Wires, rst: bool): (p': Pipe)
    requires |imem| == MEM_WORDS && |p.regs| == 32 && |p.mem| == MEM_WORDS
    ensures |p'.regs| == 32 && |p'.mem| == MEM_WORDS
  {
    var re, we := w.stageValid && w.control.memRead, w.stageValid && w.control.memWrite;
    var q := p.(ins := imem[WordIndex(p.pc)],
                regs := RfNext(p.regs, RfWe(p), p.wbRd, WbData(p)),
                mem := MemNext(p.mem, we, w.alu, w.operandB),
                rd := RdNext(p.mem, p.rd, re, we, w.alu));
    if rst then
      q.(pc := RESET_PC,
         reqValid := false, reqPc := RESET_PC,
         ifValid := false, ifPc := RESET_PC, ifPc4 := PcPlus4(RESET_PC), ifIns := NOP_INSTR,
         wbValid := false, wbRegWrite := false, wbSel := WB_ALU, wbRd := 0, wbPc4 := 0, wbAlu := 0)
    else
      var q := q.(pc := if w.redirect then w.redirectPc else PcPlus4(p.pc),
                  reqValid := !w.redirect, reqPc := p.pc,
                  wbValid := w.stageValid, wbRegWrite := w.stageValid && w.control.regWrite,
                  wbSel := w.control.wbSel, wbRd := Rd(p.ifIns), wbPc4 := p.ifPc4, wbAlu := w.alu);
      if w.redirect then q.(ifValid := false, ifPc := 0, ifPc4 := 0, ifIns := NOP_INSTR)
      else q.(ifValid := p.reqValid, ifPc := p.reqPc, ifPc4 := PcPlus4(p.reqPc), ifIns := p.ins)
  }

  function Next(imem: seq<Word>, p: Pipe, rst: bool): (p': Pipe)
    requires |imem| == MEM_WORDS && |p.regs| == 32 && |p.mem| == MEM_WORDS
    ensures |p'.regs| == 32 && |p'.mem| == MEM_WORDS
  {
    Edge(imem, p, Execute(p), rst)
  }

  // The two kinds of cycle, register by register.
  lemma EdgeRunning(imem: seq<Word>, p: Pipe, w: Wires)
    requires Sized(imem, p)
    ensures Edge(imem, p, w, false)
            == Pipe(if w.redirect then w.redirectPc else PcPlus4(p.pc),
                    imem[WordIndex(p.pc)],
                    !w.redirect, p.pc,
                    !w.redirect && p.reqValid, if w.redirect then 0 else p.reqPc,
                    if w.redirect then 0 else PcPlus4(p.reqPc), if w.redirect then NOP_INSTR else p.ins,
                    w.stageValid, w.stageValid && w.control.regWrite, w.control.wbSel, Rd(p.ifIns),
                    p.ifPc4, w.alu,
                    RfNext(p.regs, RfWe(p), p.wbRd, WbData(p)),
                    MemNext(p.mem, w.stageValid && w.control.memWrite, w.alu, w.operandB),
                    RdNext(p.mem, p.rd, w.stageValid && w.control.memRead,
                           w.stageValid && w.control.memWrite, w.alu))
  {
    hide WordIndex, PcPlus4, RfNext, MemNext, RdNext, Rd, WbData, RfWe;
  }

  lemma EdgeReset(imem: seq<Word>, p: Pipe, w: Wires)
    requires Sized(imem, p)
    ensures Edge(imem, p, w, true)
            == Pipe(RESET_PC, imem[WordIndex(p.pc)], false, RESET_PC,
                    false, RESET_PC, PcPlus4(RESET_PC), NOP_INSTR,
                    false, false, WB_ALU, 0, 0, 0,
                    RfNext(p.regs, RfWe(p), p.wbRd, WbData(p)),
                    MemNext(p.mem, w.stageValid && w.control.memWrite, w.alu, w.operandB),
                    RdNext(p.mem, p.rd, w.stageValid && w.control.memRead,
                           w.stageValid && w.control.memWrite, w.alu))
  {
    hide WordIndex, PcPlus4, RfNext, MemNext, RdNext, Rd, WbData, RfWe;
  }
}
