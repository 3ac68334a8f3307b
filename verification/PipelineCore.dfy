/**
 The core as clocked objects, one class a module of the RTL, wired as in the top module.
 `Core.Clock` computes all wires from the state before the edge and then clocks every
 block; it does to the registers exactly what `PipelineSpec.Next` says.
 */
module PipelineCore {
  import opened Isa
  import opened Datapath
  import opened PipelineSpec

  class ProgramCounter {
    var pcQ: Word

    method Posedge(rst: bool, en: bool, pcNext: Word)
      modifies this
      ensures pcQ == if rst then RESET_PC else if en then pcNext else old(pcQ)
    {
      if rst {
        pcQ := RESET_PC;
      } else if en {
        pcQ := pcNext;
      }
    }
  }

  class InstructionMemory {
    const memory: array<Word>
    var insQ: Word

    constructor (program: array<Word>)
      requires program.Length == MEM_WORDS
      ensures memory == program && insQ == NOP_INSTR
    {
      memory := program;
      insQ := NOP_INSTR;
    }

    method Posedge(addr: Word)
      requires memory.Length == MEM_WORDS
      modifies this
      ensures insQ == memory[WordIndex(addr)]
    {
      insQ := memory[WordIndex(addr)];
    }
  }

  class FetchRegister {
    var validOut: bool
    var pcOut: Word
    var pc4Out: Word
    var insOut: Word

    // Reset wins over clear, clear over enable.
    method Posedge(rst: bool, en: bool, clear: bool, validIn: bool, pcIn: Word, pc4In: Word, insIn: Word)
      modifies this
      ensures (validOut, pcOut, pc4Out, insOut)
              == if rst then (false, RESET_PC, PcPlus4(RESET_PC), NOP_INSTR)
                 else if clear then (false, 0, 0, NOP_INSTR)
                 else if en then (validIn, pcIn, pc4In, insIn)
                 else old((validOut, pcOut, pc4Out, insOut))
    {
      if rst {
        validOut, pcOut, pc4Out, insOut := false, RESET_PC, PcPlus4(RESET_PC), NOP_INSTR;
      } else if clear {
        validOut, pcOut, pc4Out, insOut := false, 0, 0, NOP_INSTR;
      } else if en {
        validOut, pcOut, pc4Out, insOut := validIn, pcIn, pc4In, insIn;
      }
    }
  }

  class RegisterFile {
    const regs: array<Word>

    constructor ()
      ensures fresh(regs) && regs.Length == 32 && forall i | 0 <= i < 32 :: regs[i] == 0
    {
      regs := new Word[32](i => 0);
    }

    function Read(rr: RegNo): (rd: Word)
      requires regs.Length == 32
      reads regs
      ensures rd == ReadReg(regs[..], rr)
    {
      if rr == 0 then 0 else regs[rr as nat]
    }

    method Posedge(we: bool, wr: RegNo, wd: Word)
      requires regs.Length == 32
      modifies regs
      ensures regs[..] == RfNext(old(regs[..]), we, wr, wd)
    {
      if we && wr != 0 {
        regs[wr as nat] := wd;
      }
      regs[0] := 0;
    }
  }

  class DataMemory {
    const memory: array<Word>
    var rdQ: Word

    constructor ()
      ensures fresh(memory) && memory.Length == MEM_WORDS && rdQ == 0
      ensures forall i | 0 <= i < MEM_WORDS :: memory[i] == 0
    {
      memory := new Word[MEM_WORDS](i => 0);
      rdQ := 0;
    }

    // A write commits on the edge; a read returns through the output register.
    method Posedge(re: bool, we: bool, addr: Word, wd: Word)
      requires memory.Length == MEM_WORDS
      modifies this, memory
      ensures memory[..] == MemNext(old(memory[..]), we, addr, wd)
      ensures rdQ == RdNext(old(memory[..]), old(rdQ), re, we, addr)
      ensures !re || we ==> rdQ == old(rdQ)
    {
      var memEn := re || we;
      var read := memory[WordIndex(addr)];
      if memEn && we {
        memory[WordIndex(addr)] := wd;
      }
      if memEn && re && !we {
        rdQ := read;
      }
    }
  }

  class Core {
    const pc: ProgramCounter
    const im: InstructionMemory
    const ifId: FetchRegister
    const rf: RegisterFile
    const dm: DataMemory
    var imReqValidQ: bool
    var imReqPcQ: Word
    var wbValid: bool
    var wbRegWrite: bool
    var wbSelQ: bv2
    var wbRdQ: RegNo
    var wbPc4Q: Word
    var wbAluResultQ: Word

    // Power-up: registers and data memory are cleared, the rest is whatever it is.
    constructor (program: array<Word>)
      requires program.Length == MEM_WORDS
      ensures Valid() && Program() == program[..] && fresh(rf) && fresh(dm)
      ensures State().regs[0] == 0
    {
      pc := new ProgramCounter;
      im := new InstructionMemory(program);
      ifId := new FetchRegister;
      rf := new RegisterFile();
      dm := new DataMemory();
    }

    ghost predicate Valid()
      reads this, im, rf, dm
    {
      && im.memory.Length == MEM_WORDS && rf.regs.Length == 32 && dm.memory.Length == MEM_WORDS
      && im.memory != rf.regs && im.memory != dm.memory && rf.regs != dm.memory
    }

    ghost function Program(): seq<Word>
      reads this, im, im.memory
    {
      im.memory[..]
    }

    ghost function State(): (p: Pipe)
      requires Valid()
      reads this, pc, im, ifId, rf, rf.regs, dm, dm.memory
    {
      Pipe(pc.pcQ, im.insQ, imReqValidQ, imReqPcQ,
           ifId.validOut, ifId.pcOut, ifId.pc4Out, ifId.insOut,
           wbValid, wbRegWrite, wbSelQ, wbRdQ, wbPc4Q, wbAluResultQ,
           rf.regs[..], dm.memory[..], dm.rdQ)
    }

    // All wires of the top module, from the state before the edge.
    method Wiring() returns (w: Wires)
      requires Valid()
      ensures w == Execute(State())
    {
      hide AluResult, ImmGen, DecodeControl, WordIndex, PcPlus4, Offset, ClearBit0, Rs1, Rs2, Rd, Operand, ReadReg,
           WbData;
      var ins := ifId.insOut;
      var rs1, rs2 := Rs1(ins), Rs2(ins);
      var dec := DecodeControl(ins);
      var stageValid := ifId.validOut && !dec.illegal;
      var operandA, operandBRaw := Operands(rs1, rs2);
      var branchEq := operandA == operandBRaw;
      var imm := ImmGen(ins, dec.immSel);
      var aluSrcB := if dec.useImm then imm else operandBRaw;
      var aluResult := AluResult(operandA, aluSrcB, dec.aluOp);
      var branchTaken := stageValid
        && ((dec.branchType == BR_EQ && branchEq) || (dec.branchType == BR_NE && !branchEq));
      var jumpTaken := stageValid && dec.jumpType != JMP_NONE;
      var redirectValid := branchTaken || jumpTaken;
      var redirectPc := if dec.jumpType == JMP_JALR then ClearBit0(Offset(operandA, imm))
                        else Offset(ifId.pcOut, imm);
      w := Wires(dec, stageValid, operandA, operandBRaw, imm, aluResult, redirectValid, redirectPc);
    }

    // The operands, forwarded from the write-back stage where it is about to write them.
    method Operands(rs1: RegNo, rs2: RegNo) returns (operandA: Word, operandBRaw: Word)
      requires Valid()
      ensures operandA == Operand(State(), rs1) && operandBRaw == Operand(State(), rs2)
    {
      hide WbData, ReadReg;
      var wbData := WriteBackData();
      var rs1ForwardHit := wbValid && wbRegWrite && wbRdQ != 0 && wbRdQ == rs1;
      var rs2ForwardHit := wbValid && wbRegWrite && wbRdQ != 0 && wbRdQ == rs2;
      operandA := if rs1ForwardHit then wbData else rf.Read(rs1);
      operandBRaw := if rs2ForwardHit then wbData else rf.Read(rs2);
    }

    method WriteBackData() returns (wbData: Word)
      requires Valid()
      ensures wbData == WbData(State())
    {
      hide WordIndex;
      wbData := if wbSelQ == WB_MEM then dm.rdQ else if wbSelQ == WB_PC4 then wbPc4Q else wbAluResultQ;
    }

    // The blocks of the fetch stage.
    method ClockFetch(rst: bool, w: Wires)
      requires Valid()
      modifies pc, im, ifId, this`imReqValidQ, this`imReqPcQ
      ensures Valid()
      ensures pc.pcQ == if rst then RESET_PC else if w.redirect then w.redirectPc else PcPlus4(old(pc.pcQ))
      ensures im.insQ == im.memory[WordIndex(old(pc.pcQ))]
      ensures imReqValidQ == (!rst && !w.redirect)
      ensures imReqPcQ == if rst then RESET_PC else old(pc.pcQ)
      ensures (ifId.validOut, ifId.pcOut, ifId.pc4Out, ifId.insOut)
              == if rst then (false, RESET_PC, PcPlus4(RESET_PC), NOP_INSTR)
                 else if w.redirect then (false, 0, 0, NOP_INSTR)
                 else (old(imReqValidQ), old(imReqPcQ), PcPlus4(old(imReqPcQ)), old(im.insQ))
    {
      hide WordIndex, PcPlus4;
      var pcQ := pc.pcQ;
      ifId.Posedge(rst, true, w.redirect, imReqValidQ, imReqPcQ, PcPlus4(imReqPcQ), im.insQ);
      im.Posedge(pcQ);
      pc.Posedge(rst, true, if w.redirect then w.redirectPc else PcPlus4(pcQ));
      if rst {
        imReqValidQ, imReqPcQ := false, RESET_PC;
      } else {
        imReqValidQ, imReqPcQ := !w.redirect, pcQ;
      }
    }

    // The register file, the data memory and the write-back registers.
    method ClockBack(rst: bool, w: Wires, ins: Word, pc4: Word)
      requires Valid()
      modifies rf.regs, dm, dm.memory, this`wbValid, this`wbRegWrite, this`wbSelQ, this`wbRdQ, this`wbPc4Q,
               this`wbAluResultQ
      ensures Valid()
      ensures rf.regs[..] == RfNext(old(rf.regs[..]), old(RfWe(State())), old(wbRdQ), old(WbData(State())))
      ensures dm.memory[..] == MemNext(old(dm.memory[..]), w.stageValid && w.control.memWrite, w.alu, w.operandB)
      ensures dm.rdQ == RdNext(old(dm.memory[..]), old(dm.rdQ), w.stageValid && w.control.memRead,
                               w.stageValid && w.control.memWrite, w.alu)
      ensures (wbValid, wbRegWrite, wbSelQ)
              == if rst then (false, false, WB_ALU)
                 else (w.stageValid, w.stageValid && w.control.regWrite, w.control.wbSel)
      ensures (wbRdQ, wbPc4Q, wbAluResultQ) == if rst then (0, 0, 0) else (Rd(ins), pc4, w.alu)
    {
      hide WordIndex, PcPlus4, RfNext, MemNext, RdNext, Rd, WbData;
      var wbData := WriteBackData();
      var rfWe := wbValid && wbRegWrite;
      rf.Posedge(rfWe, wbRdQ, wbData);
      dm.Posedge(w.stageValid && w.control.memRead, w.stageValid && w.control.memWrite, w.alu, w.operandB);
      ClockWriteBack(rst, w, ins, pc4);
    }

    method ClockWriteBack(rst: bool, w: Wires, ins: Word, pc4: Word)
      modifies this`wbValid, this`wbRegWrite, this`wbSelQ, this`wbRdQ, this`wbPc4Q, this`wbAluResultQ
      ensures (wbValid, wbRegWrite, wbSelQ)
              == if rst then (false, false, WB_ALU)
                 else (w.stageValid, w.stageValid && w.control.regWrite, w.control.wbSel)
      ensures (wbRdQ, wbPc4Q, wbAluResultQ) == if rst then (0, 0, 0) else (Rd(ins), pc4, w.alu)
    {
      if rst {
        wbValid, wbRegWrite, wbSelQ, wbRdQ, wbPc4Q, wbAluResultQ := false, false, WB_ALU, 0, 0, 0;
      } else {
        wbValid, wbRegWrite, wbSelQ := w.stageValid, w.stageValid && w.control.regWrite, w.control.wbSel;
        wbRdQ, wbPc4Q, wbAluResultQ := Rd(ins), pc4, w.alu;
      }
    }

    // A rising clock edge: every block is clocked with the wires before it.
    method Clock(rst: bool)
      requires Valid()
      modifies this, pc, im, ifId, rf.regs, dm, dm.memory
      ensures Valid() && Program() == old(Program())
      ensures State() == Next(old(Program()), old(State()), rst)
      ensures !rst && !Execute(old(State())).redirect ==> pc.pcQ == old(pc.pcQ) + 4
    {
      hide Execute, WordIndex, PcPlus4, RfNext, MemNext, RdNext, Rd, WbData, RfWe, Edge, ReadReg;
      ghost var p, imem := State(), Program();
      var w := Wiring();
      if rst {
        EdgeReset(imem, p, w);
      } else {
        EdgeRunning(imem, p, w);
      }
      var ins, pc4 := ifId.insOut, ifId.pc4Out;
      ClockBack(rst, w, ins, pc4);
      ClockFetch(rst, w);
      PcAdvances(p.pc);
    }
  }
}
