/**
 The pipelined core runs the program one instruction at a time: a cycle that finds an
 instruction in EX performs exactly one step of the instruction set on the registers
 with the pending write-back applied, and every other cycle changes nothing.
 */
module PipelineRefinement {
  import opened Isa
  import opened Datapath
  import opened PipelineSpec

  // ----- Abstraction -----

  // The instruction that will be executed next: the one in EX, or the one coming out of
  // the instruction memory, or the one being asked for.
  function NextPc(p: Pipe): Word
  {
    if p.ifValid then p.ifPc else if p.reqValid then p.reqPc else p.pc
  }

  // The registers once the write-back stage has finished.
  function Pending(p: Pipe): (regs: seq<Word>)
    requires |p.regs| == 32
    ensures |regs| == 32
  {
    if RfWe(p) then WriteReg(p.regs, p.wbRd, WbData(p)) else p.regs
  }

  function Abs(p: Pipe): Arch
    requires |p.regs| == 32
  {
    Arch(NextPc(p), Pending(p), p.mem)
  }

  // What every cycle after reset keeps: x0 is zero, and the words in flight are the
  // program's words at consecutive addresses.
  ghost predicate Inv(imem: seq<Word>, p: Pipe)
  {
    && Sized(imem, p) && p.regs[0] == 0
    && (p.ifValid ==> p.reqValid && p.reqPc == PcPlus4(p.ifPc) && p.ifPc4 == PcPlus4(p.ifPc)
                      && p.ifIns == imem[WordIndex(p.ifPc)])
    && (p.reqValid ==> p.pc == PcPlus4(p.reqPc) && p.ins == imem[WordIndex(p.reqPc)])
  }

  // ----- One cycle -----

  lemma OperandIsPending(p: Pipe, rs: RegNo)
    requires |p.regs| == 32
    ensures Operand(p, rs) == ReadReg(Pending(p), rs)
  {
  }

  lemma RfIsPending(p: Pipe)
    requires |p.regs| == 32 && p.regs[0] == 0
    ensures RfNext(p.regs, RfWe(p), p.wbRd, WbData(p)) == Pending(p)
  {
  }

  lemma InvKept(imem: seq<Word>, p: Pipe)
    requires Inv(imem, p)
    ensures Inv(imem, Next(imem, p, false))
  {
    hide Execute, MemNext, RdNext, WordIndex, PcPlus4, WriteReg, RfNext, WbData, RfWe;
    X0Kept(p);
  }

  lemma X0Kept(p: Pipe)
    requires |p.regs| == 32
    ensures RfNext(p.regs, RfWe(p), p.wbRd, WbData(p))[0] == 0
  {
  }

  lemma Stutters(imem: seq<Word>, p: Pipe)
    requires Inv(imem, p) && !p.ifValid
    ensures Abs(Next(imem, p, false)) == Abs(p)
  {
    hide AluResult, ImmGen, DecodeControl, WordIndex, PcPlus4, Operand, WriteReg, RfNext, WbData, Rd, Rs1, Rs2;
    RfIsPending(p);
  }

  // The immediate generator yields the instruction's immediate under its control signals.
  lemma Immediate(ins: Word)
    ensures var i := Decode(ins);
            && (i.OpImm? || i.Load? || i.Jalr? ==> ImmGen(ins, IMM_I) == i.imm)
            && (i.Store? ==> ImmGen(ins, IMM_S) == i.imm)
            && (i.Branch? ==> ImmGen(ins, IMM_B) == i.imm)
            && (i.Jal? ==> ImmGen(ins, IMM_J) == i.imm)
  {
    hide Opcode, F3, F7, Rd, Rs1, Rs2, ImmI, ImmS, ImmB, ImmJ, ImmGen, DecodeOp;
    ImmGenI(ins);
    ImmGenS(ins);
    ImmGenB(ins);
    ImmGenJ(ins);
  }

  // The registers an instruction names are the fields the core reads.
  lemma Fields(ins: Word)
    ensures var i := Decode(ins);
            && (i.Op? || i.OpImm? || i.Load? || i.Jal? || i.Jalr? ==> i.rd == Rd(ins))
            && (i.Op? || i.OpImm? || i.Load? || i.Store? || i.Branch? || i.Jalr? ==> i.rs1 == Rs1(ins))
            && (i.Op? || i.Store? || i.Branch? ==> i.rs2 == Rs2(ins))
  {
    hide Opcode, F3, F7, Rd, Rs1, Rs2, ImmI, ImmS, ImmB, ImmJ, DecodeOp;
  }

  lemma AddressAdds(a: Word, imm: Word)
    ensures AluResult(a, imm, ALU_ADD) == Offset(a, imm)
  {
    hide AluResult;
    AluComputes(Add, a, imm);
  }

  // What EX computes for the instruction it holds, in terms of the instruction set.
  lemma Computes(p: Pipe, i: Instr)
    requires |p.regs| == 32 && p.ifValid && i == Decode(p.ifIns)
    ensures var w := Execute(p);
            var r1, r2 := ReadReg(Pending(p), Rs1(p.ifIns)), ReadReg(Pending(p), Rs2(p.ifIns));
            && w.stageValid == !i.Unsupported? && w.operandB == r2
            && (!i.Unsupported? ==> w.control == ControlFor(i))
            && (i.Op? ==> w.alu == Alu(i.fn, r1, r2) && !w.redirect)
            && (i.OpImm? ==> w.alu == Alu(i.fn, r1, i.imm) && !w.redirect)
            && (i.Load? || i.Store? ==> w.alu == Offset(r1, i.imm) && !w.redirect)
            && (i.Branch? ==> w.redirect == ((r1 == r2) == i.onEqual) && w.redirectPc == Offset(p.ifPc, i.imm))
            && (i.Jal? ==> w.redirect && w.redirectPc == Offset(p.ifPc, i.imm))
            && (i.Jalr? ==> w.redirect && w.redirectPc == ClearBit0(Offset(r1, i.imm)))
            && (i.Unsupported? ==> !w.redirect)
  {
    hide AluResult, Alu, AluCode, ImmGen, DecodeControl, Decode, Rs1, Rs2, Offset, ClearBit0, ReadReg, Pending, Operand;
    var r1, r2 := ReadReg(Pending(p), Rs1(p.ifIns)), ReadReg(Pending(p), Rs2(p.ifIns));
    OperandIsPending(p, Rs1(p.ifIns));
    OperandIsPending(p, Rs2(p.ifIns));
    DecoderDecodes(p.ifIns);
    Immediate(p.ifIns);
    match i {
      case Op(fn, _, _, _) => AluComputes(fn, r1, r2);
      case OpImm(fn, _, _, imm) => AluComputes(fn, r1, imm);
      case Load(_, _, imm) => AddressAdds(r1, imm);
      case Store(_, _, imm) => AddressAdds(r1, imm);
      case _ =>
    }
  }

  // A cycle with an instruction in EX is one step of the instruction set: its program
  // counter, its memory and its registers.
  lemma Retires(imem: seq<Word>, p: Pipe)
    requires Inv(imem, p) && p.ifValid
    ensures Abs(p).Valid() && Abs(Next(imem, p, false)) == Step(imem, Abs(p))
  {
    hide Next, Exec, Decode, WordIndex;
    PendingX0(p);
    RetiresPc(imem, p);
    RetiresMem(imem, p);
    RetiresRegs(imem, p);
  }

  lemma PendingX0(p: Pipe)
    requires |p.regs| == 32 && p.regs[0] == 0
    ensures Pending(p)[0] == 0
  {
  }

  lemma RetiresPc(imem: seq<Word>, p: Pipe)
    requires Inv(imem, p) && p.ifValid
    ensures NextPc(Next(imem, p, false)) == Exec(Decode(p.ifIns), Abs(p)).pc
  {
    hide Execute, WordIndex, PcPlus4, Offset, ClearBit0, Alu, Decode, Rd, Rs1, Rs2, RfNext, MemNext, RdNext,
         WriteReg, ReadReg, Pending;
    Computes(p, Decode(p.ifIns));
    Fields(p.ifIns);
  }

  lemma RetiresMem(imem: seq<Word>, p: Pipe)
    requires Inv(imem, p) && p.ifValid
    ensures Next(imem, p, false).mem == Exec(Decode(p.ifIns), Abs(p)).mem
  {
    hide Execute, WordIndex, PcPlus4, Offset, ClearBit0, Alu, Decode, Rd, Rs1, Rs2, Edge,
         WriteReg, ReadReg, Pending;
    EdgeWb(imem, p, Execute(p));
    Computes(p, Decode(p.ifIns));
    Fields(p.ifIns);
  }

  // The write-back that the instruction in EX leaves pending.
  function Result(p: Pipe, w: Wires): Word
    requires |p.mem| == MEM_WORDS
  {
    if w.control.wbSel == WB_MEM then
      RdNext(p.mem, p.rd, w.stageValid && w.control.memRead, w.stageValid && w.control.memWrite, w.alu)
    else if w.control.wbSel == WB_PC4 then p.ifPc4
    else w.alu
  }

  lemma PendingNext(imem: seq<Word>, p: Pipe, w: Wires)
    requires Sized(imem, p) && p.regs[0] == 0
    ensures Pending(Edge(imem, p, w, false))
            == if w.stageValid && w.control.regWrite then WriteReg(Pending(p), Rd(p.ifIns), Result(p, w))
               else Pending(p)
  {
    hide WordIndex, PcPlus4, Rd, RfNext, MemNext, RdNext, WriteReg, Edge;
    EdgeWb(imem, p, w);
    assert Edge(imem, p, w, false).regs == Pending(p) by {
      RfIsPending(p);
    }
  }

  // What the write-back registers and the memories hold after the edge.
  lemma EdgeWb(imem: seq<Word>, p: Pipe, w: Wires)
    requires Sized(imem, p)
    ensures var q := Edge(imem, p, w, false);
            && q.wbValid == w.stageValid && q.wbRegWrite == (w.stageValid && w.control.regWrite)
            && q.wbSel == w.control.wbSel && q.wbRd == Rd(p.ifIns) && q.wbPc4 == p.ifPc4 && q.wbAlu == w.alu
            && q.regs == RfNext(p.regs, RfWe(p), p.wbRd, WbData(p))
            && q.mem == MemNext(p.mem, w.stageValid && w.control.memWrite, w.alu, w.operandB)
            && q.rd == RdNext(p.mem, p.rd, w.stageValid && w.control.memRead,
                              w.stageValid && w.control.memWrite, w.alu)
  {
    hide WordIndex, PcPlus4, Rd, RfNext, MemNext, RdNext, RfWe, WbData;
  }

  lemma Results(p: Pipe, w: Wires, i: Instr, r1: Word)
    requires |p.mem| == MEM_WORDS && p.ifPc4 == PcPlus4(p.ifPc)
    requires !i.Unsupported? && w.stageValid && w.control == ControlFor(i)
    ensures i.Op? || i.OpImm? ==> Result(p, w) == w.alu
    ensures i.Load? ==> Result(p, w) == p.mem[WordIndex(w.alu)]
    ensures i.Jal? || i.Jalr? ==> Result(p, w) == PcPlus4(p.ifPc)
    ensures w.control.regWrite <==> !(i.Store? || i.Branch?)
  {
    hide WordIndex, PcPlus4;
  }

  lemma RetiresRegs(imem: seq<Word>, p: Pipe)
    requires Inv(imem, p) && p.ifValid
    ensures Pending(Next(imem, p, false)) == Exec(Decode(p.ifIns), Abs(p)).regs
  {
    var i, w := Decode(p.ifIns), Execute(p);
    hide Execute, WordIndex, PcPlus4, Offset, ClearBit0, Alu, Decode, Rd, Rs1, Rs2, Edge, Result,
         WriteReg, ReadReg, Pending, ControlFor;
    PendingNext(imem, p, w);
    Computes(p, i);
    Fields(p.ifIns);
    if !i.Unsupported? {
      Results(p, w, i, ReadReg(Pending(p), Rs1(p.ifIns)));
    }
  }

  // ----- Runs -----

  function Run(imem: seq<Word>, p: Pipe, n: nat): (q: Pipe)
    requires Sized(imem, p)
    ensures Sized(imem, q)
  {
    if n == 0 then p else Next(imem, Run(imem, p, n - 1), false)
  }

  // Cycles among the first n that found an instruction in EX, ...
  function Retired(imem: seq<Word>, p: Pipe, n: nat): nat
    requires Sized(imem, p)
  {
    if n == 0 then 0
    else Retired(imem, p, n - 1) + (if Run(imem, p, n - 1).ifValid then 1 else 0)
  }

  // ... and those that redirected fetching.
  function Redirects(imem: seq<Word>, p: Pipe, n: nat): nat
    requires Sized(imem, p)
  {
    if n == 0 then 0
    else Redirects(imem, p, n - 1) + (if Execute(Run(imem, p, n - 1)).redirect then 1 else 0)
  }

  lemma CycleKeeps(imem: seq<Word>, p: Pipe)
    requires Inv(imem, p)
    ensures Inv(imem, Next(imem, p, false)) && Abs(p).Valid()
    ensures Abs(Next(imem, p, false)) == if p.ifValid then Step(imem, Abs(p)) else Abs(p)
  {
    AbsValid(imem, p);
    hide Next, Abs, Step;
    InvKept(imem, p);
    if p.ifValid {
      Retires(imem, p);
    } else {
      Stutters(imem, p);
    }
  }

  // What one more cycle adds to a run and its counts.
  lemma RunNext(imem: seq<Word>, p: Pipe, n: nat)
    requires Sized(imem, p)
    ensures var q := Run(imem, p, n);
            && Run(imem, p, n + 1) == Next(imem, q, false)
            && Retired(imem, p, n + 1) == Retired(imem, p, n) + (if q.ifValid then 1 else 0)
            && Redirects(imem, p, n + 1) == Redirects(imem, p, n) + (if Execute(q).redirect then 1 else 0)
  {
    hide Next, Execute, Sized;
  }

  lemma RunStart(imem: seq<Word>, p: Pipe)
    requires Sized(imem, p)
    ensures Run(imem, p, 0) == p && Retired(imem, p, 0) == 0 && Redirects(imem, p, 0) == 0
  {
  }

  // q is where the instruction set machine at p is after k steps.
  ghost predicate Follows(imem: seq<Word>, p: Pipe, q: Pipe, k: nat)
  {
    Inv(imem, p) && Inv(imem, q) && Abs(p).Valid() && Abs(q) == Steps(imem, Abs(p), k)
  }

  lemma FollowsStart(imem: seq<Word>, p: Pipe)
    requires Inv(imem, p)
    ensures Follows(imem, p, p, 0)
  {
    AbsValid(imem, p);
    hide Abs, Step;
  }

  lemma FollowsNext(imem: seq<Word>, p: Pipe, q: Pipe, k: nat)
    requires Sized(imem, q) && Follows(imem, p, q, k)
    ensures Follows(imem, p, Next(imem, q, false), k + (if q.ifValid then 1 else 0))
  {
    hide Next, Abs, Step;
    CycleKeeps(imem, q);
  }

  lemma {:induction false} FollowsRun(imem: seq<Word>, p: Pipe, n: nat)
    requires Sized(imem, p) && Inv(imem, p)
    ensures Follows(imem, p, Run(imem, p, n), Retired(imem, p, n))
    decreases n
  {
    hide Next, Inv, Follows, Run, Retired, Redirects, Execute;
    if n == 0 {
      RunStart(imem, p);
      FollowsStart(imem, p);
    } else {
      FollowsRun(imem, p, n - 1);
      RunNext(imem, p, n - 1);
      FollowsNext(imem, p, Run(imem, p, n - 1), Retired(imem, p, n - 1));
    }
  }

  // For every program and number of cycles, the core has performed as many steps of the
  // instruction set as it has retired instructions.
  lemma Refines(imem: seq<Word>, p: Pipe, n: nat)
    requires Inv(imem, p)
    ensures Inv(imem, Run(imem, p, n))
    ensures Abs(p).Valid() && Abs(Run(imem, p, n)) == Steps(imem, Abs(p), Retired(imem, p, n))
  {
    FollowsRun(imem, p, n);
    hide Abs, Step, Steps, Arch.Valid, Run, Retired;
  }

  lemma AbsValid(imem: seq<Word>, p: Pipe)
    requires Inv(imem, p)
    ensures Abs(p).Valid()
  {
    PendingX0(p);
  }

  // Four times n, as a word.
  function BytesOf(n: nat): Word
  {
    if n == 0 then 0 else PcPlus4(BytesOf(n - 1))
  }

  // Without a redirect the program counter advances by four bytes an instruction.
  lemma StraightCycle(imem: seq<Word>, q: Pipe)
    requires Inv(imem, q) && !Execute(q).redirect
    ensures NextPc(Next(imem, q, false)) == if q.ifValid then Offset(NextPc(q), 4) else NextPc(q)
  {
    hide Execute, WordIndex, MemNext, RdNext, RfNext, WbData, RfWe, Rd, PcPlus4, Offset;
    PcAdvances(NextPc(q));
  }

  lemma OffsetFour(base: Word, imm: Word)
    ensures Offset(Offset(base, imm), 4) == Offset(base, PcPlus4(imm))
    ensures Offset(base, 0) == base
  {
  }

  // Instructions without a redirect end four bytes on for each of them.
  lemma {:induction false} StraightLine(imem: seq<Word>, p: Pipe, n: nat)
    requires Sized(imem, p) && Inv(imem, p) && Redirects(imem, p, n) == 0
    ensures Abs(Run(imem, p, n)).pc == Offset(Abs(p).pc, BytesOf(Retired(imem, p, n)))
    decreases n
  {
    hide Next, Inv, Execute, Run, Retired, Redirects, Offset, PcPlus4, Pending;
    if n == 0 {
      RunStart(imem, p);
      OffsetFour(NextPc(p), 0);
    } else {
      RunNext(imem, p, n - 1);
      StraightLine(imem, p, n - 1);
      Refines(imem, p, n - 1);
      StraightCycle(imem, Run(imem, p, n - 1));
      OffsetFour(NextPc(p), BytesOf(Retired(imem, p, n - 1)));
    }
  }

  // Cycles until the next instruction is in EX.
  function Bubbles(p: Pipe): nat
  {
    if p.ifValid then 0 else if p.reqValid then 1 else 2
  }

  lemma BubblesNext(imem: seq<Word>, p: Pipe)
    requires Inv(imem, p)
    ensures Execute(p).redirect ==> p.ifValid
    ensures Bubbles(Next(imem, p, false))
            == if Execute(p).redirect then 2 else if p.ifValid then 0 else Bubbles(p) - 1
  {
    hide AluResult, ImmGen, DecodeControl, WordIndex, PcPlus4, Operand, WriteReg, RfNext, MemNext, RdNext,
         WbData, Rd, Rs1, Rs2, Offset, ClearBit0;
  }

  // n cycles from p to q, with k instructions and r redirects among them.
  predicate Accounted(p: Pipe, q: Pipe, n: nat, k: nat, r: nat)
  {
    n + Bubbles(q) == Bubbles(p) + k + 2 * r
  }

  lemma AccountedNext(imem: seq<Word>, p: Pipe, q: Pipe, n: nat, k: nat, r: nat)
    requires Sized(imem, q) && Inv(imem, q) && Accounted(p, q, n, k, r)
    ensures Accounted(p, Next(imem, q, false), n + 1, k + (if q.ifValid then 1 else 0),
                      r + (if Execute(q).redirect then 1 else 0))
  {
    hide Next, Inv, Execute, Bubbles;
    BubblesNext(imem, q);
    NoBubble(q);
  }

  lemma {:induction false} AccountedRun(imem: seq<Word>, p: Pipe, n: nat)
    requires Sized(imem, p) && Inv(imem, p)
    ensures Accounted(p, Run(imem, p, n), n, Retired(imem, p, n), Redirects(imem, p, n))
    decreases n
  {
    hide Next, Inv, Execute, Accounted, Run, Retired, Redirects, Follows;
    if n == 0 {
      RunStart(imem, p);
      AccountedStart(p);
    } else {
      AccountedRun(imem, p, n - 1);
      RunNext(imem, p, n - 1);
      FollowsRun(imem, p, n - 1);
      var q := Run(imem, p, n - 1);
      FollowsInv(imem, p, q, Retired(imem, p, n - 1));
      AccountedNext(imem, p, q, n - 1, Retired(imem, p, n - 1), Redirects(imem, p, n - 1));
    }
  }

  lemma AccountedStart(p: Pipe)
    ensures Accounted(p, p, 0, 0, 0)
  {
  }

  lemma FollowsInv(imem: seq<Word>, p: Pipe, q: Pipe, k: nat)
    requires Follows(imem, p, q, k)
    ensures Inv(imem, q)
  {
    hide Inv, Abs, Steps;
  }

  // Cycles are accounted for exactly: one for every instruction, two for every redirect,
  // and the bubbles at either end.
  lemma CycleCount(imem: seq<Word>, p: Pipe, n: nat)
    requires Inv(imem, p)
    ensures n + Bubbles(Run(imem, p, n))
            == Bubbles(p) + Retired(imem, p, n) + 2 * Redirects(imem, p, n)
  {
    AccountedRun(imem, p, n);
    hide Bubbles, Run, Retired, Redirects;
  }

  lemma NoBubble(p: Pipe)
    ensures p.ifValid <==> Bubbles(p) == 0
  {
  }

  // After a redirect EX is idle for exactly two cycles, and then holds the target.
  lemma RedirectCost(imem: seq<Word>, p: Pipe)
    requires Inv(imem, p) && Execute(p).redirect
    ensures !Run(imem, p, 1).ifValid && !Run(imem, p, 2).ifValid && Run(imem, p, 3).ifValid
    ensures Run(imem, p, 3).ifPc == Execute(p).redirectPc
  {
    hide AluResult, ImmGen, DecodeControl, WordIndex, PcPlus4, Operand, WriteReg, RfNext, MemNext, RdNext,
         WbData, Rd, Rs1, Rs2, Offset, ClearBit0;
    RunOne(imem, p, 0);
    RunOne(imem, p, 1);
    RunOne(imem, p, 2);
  }

  lemma RunOne(imem: seq<Word>, p: Pipe, n: nat)
    requires Sized(imem, p)
    ensures Run(imem, p, n + 1) == Next(imem, Run(imem, p, n), false)
    ensures Run(imem, p, 0) == p
  {
    hide Next;
  }

  // The core never stops: it retires k instructions within 3k + 2 cycles, so every step
  // of the program is reached.
  lemma {:induction false} Progress(imem: seq<Word>, p: Pipe, k: nat) returns (n: nat)
    requires Inv(imem, p)
    ensures n <= 3 * k + 2 && Retired(imem, p, n) == k && Run(imem, p, n).ifValid
    decreases k
  {
    assert Sized(imem, p);
    hide Next, Inv, Execute, Sized, Run, Retired, Bubbles;
    if k == 0 {
      RetiredNone(imem, p);
      n := Fill(imem, p, 0);
    } else {
      var m := Progress(imem, p, k - 1);
      n := RetireAndFill(imem, p, m);
    }
  }

  lemma RetireAndFill(imem: seq<Word>, p: Pipe, m: nat) returns (n: nat)
    requires Inv(imem, p) && Run(imem, p, m).ifValid
    ensures n <= m + 3 && Retired(imem, p, n) == Retired(imem, p, m) + 1 && Run(imem, p, n).ifValid
  {
    hide Next;
    n := Fill(imem, p, m + 1);
  }

  lemma RetiredNone(imem: seq<Word>, p: Pipe)
    requires Sized(imem, p)
    ensures Retired(imem, p, 0) == 0
  {
  }

  // Waiting out the bubbles retires nothing.
  lemma {:induction false} Fill(imem: seq<Word>, p: Pipe, m: nat) returns (n: nat)
    requires Inv(imem, p)
    ensures m <= n <= m + 2 && n <= m + Bubbles(Run(imem, p, m)) && Run(imem, p, n).ifValid
    ensures Retired(imem, p, n) == Retired(imem, p, m)
    decreases Bubbles(Run(imem, p, m))
  {
    assert Sized(imem, p);
    hide Next, Inv, Execute;
    n := m;
    if !Run(imem, p, m).ifValid {
      Refines(imem, p, m);
      BubblesNext(imem, Run(imem, p, m));
      n := Fill(imem, p, m + 1);
    }
  }

  // ----- Reset -----

  // One reset cycle establishes the invariant from any state. It finishes the pending
  // write-back and commits a store that is in EX, but drops a register write in EX.
  lemma ResetEstablishes(imem: seq<Word>, p: Pipe)
    requires Sized(imem, p)
    ensures var q := Next(imem, p, true);
            && Inv(imem, q) && Bubbles(q) == 2
            && Abs(q) == Arch(RESET_PC, Pending(p)[0 := 0], Next(imem, p, false).mem)
  {
    hide Execute, WordIndex, MemNext, RdNext, PcPlus4, WbData;
  }
}
