/** Instruction by instruction, the emitted statements do what the ARM
    instruction does; the carry flag agrees whenever it is not stale. */
module Simulation {
  import opened Words
  import opened Shifts
  import opened Guest
  import opened Wrappers
  import opened Arm
  import opened CCode
  import opened Lift

  // ---- the relation ----

  /** Registers, memory, N, Z, V and the external calls agree; C agrees unless stale. */
  predicate Agree(h: Host, s: State, stale: bool) {
    && h.cpu.r == s.cpu.r && h.cpu.mem == s.cpu.mem && h.log == s.log
    && h.cpu.cpsr.n == s.cpu.cpsr.n && h.cpu.cpsr.z == s.cpu.cpsr.z && h.cpu.cpsr.v == s.cpu.cpsr.v
    && h.cpu.cpsr.mode == s.cpu.cpsr.mode
    && (!stale ==> h.cpu.cpsr.c == s.cpu.cpsr.c)
  }

  predicate ReadsCarry(cond: Cond) {
    cond == HS || cond == LO || cond == HI || cond == LS
  }

  /** The operand's shifter produces a carry-out of its own. */
  predicate ShiftsCarry(o: Operand) {
    match o
    case Imm(_, rot) => rot != 0
    case Reg(_) => false
    case ShiftImm(_, _, amount) => amount != 0
    case ShiftReg(_, _, _) => true
    case Rrx(_) => true
  }

  /** Is the carry stale after this instruction, given whether it was before? */
  predicate StaleAfter(op: Op, stale: bool) {
    match op
    case Dp(o, s, _, _, src) =>
      if !s && !IsTest(o) then stale
      else if IsLogical(o) then stale || ShiftsCarry(src)
      else false
    case Mul(s, _, _, _) => stale || s
    case Mla(s, _, _, _, _) => stale || s
    case _ => stale
  }

  // ---- what the lifter can render ----

  predicate ShiftRendered(amount: nat) {
    amount <= 31
  }

  /** The forms the emitted C is right for, beyond what the architecture defines. */
  predicate Liftable(op: Op) {
    match op
    case Dp(o, _, rd, _, src) => (IsTest(o) || rd != PC) && (src.ShiftImm? ==> ShiftRendered(src.amount))
    case MulLong(_, _, s, _, _, _, _) => !s
    case Load(_, _, rd, rn, off, ix) =>
      && (off.ByReg? ==> ShiftRendered(off.amount))
      && (ix != Plain ==> rd != PC && (off.ByReg? ==> off.rm != rd))
      && (ix == PostIndex && off.ByReg? ==> off.amount == 0)
    case Store(_, _, _, off, ix) =>
      && (off.ByReg? ==> ShiftRendered(off.amount))
      && (ix == PostIndex && off.ByReg? ==> off.amount == 0)
    case Push(regs) => SP !in regs
    case Block(_, mode, _, wb, regs) => wb && mode == DA ==> Count(regs) != 1
    case BlxReg(rm) => rm != LR
    case _ => true
  }

  /** The forms the lifter does not render, and leaves a stub for. */
  predicate Stubbed(op: Op) {
    op.Dp? && (op.op == ADC || op.op == SBC || op.op == RSC || op.src.Rrx?)
  }

  // ---- conditions and operands ----

  lemma CondAgrees(cond: Cond, h: Host, s: State, stale: bool)
    requires Agree(h, s, stale) && (ReadsCarry(cond) ==> !stale)
    ensures CcTest(cond, h.cpu.cpsr) == Passes(cond, s.cpu.cpsr)
  {
  }

  /** Evaluation, one equation per operator. */
  lemma EvalBin(op: BinOp, a: Expr, b: Expr, h: Host)
    ensures Eval(EBin(op, a, b), h) == Bin(op, Eval(a, h), Eval(b, h))
  {
    hide Bin, CShift, AmountShift, LoadVal;
  }

  lemma EvalNot(a: Expr, h: Host)
    ensures Eval(ENot(a), h) == Not(Eval(a, h))
  {
    hide Bin, CShift, AmountShift, LoadVal;
  }

  lemma EvalReg(n: RegNo, pc: Word, h: Host)
    ensures Eval(RegE(n, pc), h) == RegVal(pc, h.cpu.r, n)
    ensures n != PC ==> RegE(n, pc) == EReg(n)
  {
  }

  lemma EvalShift(kind: ShiftKind, e: Expr, amount: nat, h: Host)
    requires ShiftRendered(amount)
    ensures Eval(ShiftE(kind, e, amount), h) == Shifted(kind, Eval(e, h), amount)
  {
    hide Bin, AmountShift, LoadVal, ConstShift;
    if amount > 0 {
      ConstShiftCorrect(kind, Eval(e, h), amount);
    }
  }

  lemma EvalAmount(kind: ShiftKind, a: Expr, b: Expr, h: Host)
    ensures Eval(EAmount(kind, a, b), h) == Shifted(kind, Eval(a, h), Eval(b, h) % 0x100)
  {
    hide Bin, CShift, AmountShift, LoadVal, Shifted;
    AmountShiftCorrect(kind, Eval(a, h), Eval(b, h));
  }

  lemma OperandAgrees(o: Operand, pc: Word, h: Host, carry: bool)
    requires SrcE(o, pc).Some? && (o.ShiftImm? ==> ShiftRendered(o.amount))
    ensures Eval(SrcE(o, pc).value, h) == ShifterOperand(o, pc, h.cpu.r, carry).value
    ensures !ShiftsCarry(o) ==> ShifterOperand(o, pc, h.cpu.r, carry).carry == carry
  {
    hide Bin, CShift, AmountShift, LoadVal, Shifted;
    match o
    case Imm(imm8, rot) =>
    case Reg(rm) => EvalReg(rm, pc, h);
    case ShiftImm(rm, kind, amount) =>
      EvalReg(rm, pc, h);
      EvalShift(kind, RegE(rm, pc), amount, h);
    case ShiftReg(rm, kind, rs) =>
      EvalReg(rm, pc, h);
      EvalReg(rs, pc, h);
      EvalAmount(kind, RegE(rm, pc), RegE(rs, pc), h);
  }

  lemma LogicalExpr(op: DpOp, a: Expr, b: Expr, h: Host)
    requires IsLogical(op)
    ensures Eval(LogicalE(op, a, b), h) == LogicalResult(op, Eval(a, h), Eval(b, h))
  {
    hide Eval, Bitwise, MulRes;
    EvalNot(b, h);
    EvalBin(COr, a, b, h);
    EvalBin(CXor, a, b, h);
    EvalBin(CAnd, a, b, h);
    EvalBin(CAnd, a, ENot(b), h);
  }

  // ---- single statements ----

  lemma DoOne(st: Stmt, h: Host)
    requires IsStraight(st)
    ensures AllStraight([st]) && DoAll([st], h) == Do(st, h)
  {
    hide Do, Eval;
  }

  lemma AssignRuns(n: RegNo, e: Expr, h: Host)
    ensures AllStraight([SAssign(EReg(n), e)]) && DoAll([SAssign(EReg(n), e)], h) == SetReg(h, n, Eval(e, h))
  {
    hide Eval;
    DoOne(SAssign(EReg(n), e), h);
  }

  lemma DoTwo(a: Stmt, b: Stmt, h: Host)
    requires IsStraight(a) && IsStraight(b)
    ensures AllStraight([a, b]) && DoAll([a, b], h) == Do(b, Do(a, h))
  {
    hide Do, Eval;
    assert [a, b][1..] == [b];
    DoOne(b, Do(a, h));
  }

  /** A register and its flags written on both sides. */
  lemma WriteAgrees(h: Host, s: State, stale: bool, rd: RegNo, v: Word, hf: Psr, sf: Psr, pc: Word)
    requires h.cpu.r == s.cpu.r && h.cpu.mem == s.cpu.mem && h.log == s.log
    requires hf == sf.(c := hf.c) && (!stale ==> hf.c == sf.c)
    ensures Agree(SetPsr(SetReg(h, rd, v), hf), State(s.cpu.(r := Set(s.cpu.r, rd, v), cpsr := sf), pc, s.log), stale)
  {
  }

  lemma FlagsAgree(hf: Psr, sf: Psr, v: Word)
    requires hf == sf.(c := hf.c)
    ensures SetNZ(hf, v) == NZ(sf, v).(c := hf.c)
  {
  }

  lemma WithNZRuns(rd: RegNo, e: Expr, s: bool, h: Host)
    ensures AllStraight(WithNZ(EReg(rd), e, s))
    ensures var v := Eval(e, h);
            DoAll(WithNZ(EReg(rd), e, s), h) ==
            SetPsr(SetReg(h, rd, v), if s then SetNZ(h.cpu.cpsr, v) else h.cpu.cpsr)
  {
    hide Bin, CShift, AmountShift, LoadVal, SetNZ;
    if s {
      DoTwo(SAssign(EReg(rd), e), SSetNZ(EReg(rd)), h);
      assert WithNZ(EReg(rd), e, s) == [SAssign(EReg(rd), e), SSetNZ(EReg(rd))];
    } else {
      DoOne(SAssign(EReg(rd), e), h);
      assert WithNZ(EReg(rd), e, s) == [SAssign(EReg(rd), e)];
    }
  }

  // ---- data processing ----

  lemma DpExecutes(s: State, op: DpOp, sf: bool, rd: RegNo, rn: RegNo, src: Operand, sum: Sum)
    requires sum == DpResult(op, s.cpu.cpsr, RegVal(s.pc, s.cpu.r, rn),
                             ShifterOperand(src, s.pc, s.cpu.r, s.cpu.cpsr.c))
    ensures !IsTest(op) && rd != PC ==>
              ExecDp(s, op, sf, rd, rn, src) ==
              Some(State(s.cpu.(r := Set(s.cpu.r, rd, sum.res), cpsr := if sf then sum.flags else s.cpu.cpsr),
                         Wrap(s.pc + 4), s.log))
    ensures IsTest(op) ==>
              ExecDp(s, op, sf, rd, rn, src) == Some(State(s.cpu.(cpsr := sum.flags), Wrap(s.pc + 4), s.log))
  {
    hide DpResult, RegVal, ShifterOperand;
  }

  lemma LogicalDpResult(op: DpOp, f: Psr, x: Word, y: Shifter)
    requires IsLogical(op)
    ensures var v := LogicalResult(op, x, y.value);
            DpResult(op, f, x, y) == Sum(v, NZ(f, v).(c := y.carry))
  {
    hide LogicalResult, Arithmetic, NZ;
  }

  lemma LogicalSim(op: DpOp, sf: bool, rd: RegNo, rn: RegNo, src: Operand, h: Host, s: State, stale: bool)
    requires Agree(h, s, stale) && IsLogical(op) && !IsTest(op) && rd != PC
    requires DpBody(op, sf, rd, rn, src, s.pc).Some? && (src.ShiftImm? ==> ShiftRendered(src.amount))
    ensures var body := DpBody(op, sf, rd, rn, src, s.pc).value;
            && AllStraight(body) && ExecDp(s, op, sf, rd, rn, src).Some?
            && Agree(DoAll(body, h), ExecDp(s, op, sf, rd, rn, src).value,
                     if sf then stale || ShiftsCarry(src) else stale)
  {
    hide Eval, SrcE, LogicalE, LogicalResult, ShifterOperand, RegVal, ExecDp, DpResult, DoAll, WithNZ, SetNZ, NZ;
    var x, y := RegVal(s.pc, s.cpu.r, rn), ShifterOperand(src, s.pc, s.cpu.r, s.cpu.cpsr.c);
    var a, b := RegE(rn, s.pc), SrcE(src, s.pc).value;
    OperandAgrees(src, s.pc, h, s.cpu.cpsr.c);
    EvalReg(rn, s.pc, h);
    LogicalExpr(op, a, b, h);
    WithNZRuns(rd, LogicalE(op, a, b), sf, h);
    var v := LogicalResult(op, x, y.value);
    LogicalDpResult(op, s.cpu.cpsr, x, y);
    DpExecutes(s, op, sf, rd, rn, src, DpResult(op, s.cpu.cpsr, x, y));
    FlagsAgree(h.cpu.cpsr, s.cpu.cpsr, v);
    var hf := if sf then SetNZ(h.cpu.cpsr, v) else h.cpu.cpsr;
    var af := if sf then NZ(s.cpu.cpsr, v).(c := y.carry) else s.cpu.cpsr;
    WriteAgrees(h, s, if sf then stale || ShiftsCarry(src) else stale, rd, v, hf, af, Wrap(s.pc + 4));
  }

  lemma LogicalTestSim(op: DpOp, sf: bool, rd: RegNo, rn: RegNo, src: Operand, h: Host, s: State, stale: bool)
    requires Agree(h, s, stale) && (op == TST || op == TEQ)
    requires DpBody(op, sf, rd, rn, src, s.pc).Some? && (src.ShiftImm? ==> ShiftRendered(src.amount))
    ensures var body := DpBody(op, sf, rd, rn, src, s.pc).value;
            && AllStraight(body) && ExecDp(s, op, sf, rd, rn, src).Some?
            && Agree(DoAll(body, h), ExecDp(s, op, sf, rd, rn, src).value, stale || ShiftsCarry(src))
  {
    hide Eval, SrcE, LogicalE, LogicalResult, ShifterOperand, RegVal, ExecDp, DpResult, DoAll, WithNZ, SetNZ, NZ;
    var x, y := RegVal(s.pc, s.cpu.r, rn), ShifterOperand(src, s.pc, s.cpu.r, s.cpu.cpsr.c);
    var a, b := RegE(rn, s.pc), SrcE(src, s.pc).value;
    OperandAgrees(src, s.pc, h, s.cpu.cpsr.c);
    EvalReg(rn, s.pc, h);
    LogicalExpr(op, a, b, h);
    DoOne(SSetNZ(LogicalE(op, a, b)), h);
    LogicalDpResult(op, s.cpu.cpsr, x, y);
    DpExecutes(s, op, sf, rd, rn, src, DpResult(op, s.cpu.cpsr, x, y));
    FlagsAgree(h.cpu.cpsr, s.cpu.cpsr, LogicalResult(op, x, y.value));
  }

  lemma SumAgrees(hf: Psr, sf: Psr, x: Word, y: Word)
    requires hf == sf.(c := hf.c)
    ensures AddFlags(hf, x, y, 0) == AddWithCarry(sf, x, y, 0).flags
    ensures SubFlags(hf, x, y) == Subtract(sf, x, y, 0).flags
    ensures AddWithCarry(sf, x, y, 0).res == Wrap(x + y) && Subtract(sf, x, y, 0).res == Wrap(x - y)
  {
    hide AddFlags, SubFlags;
    AddFlagsMeaning(hf, x, y, 0);
    SubFlagsMeaning(hf, x, y);
  }

  /** The statement for an addition or subtraction. */
  function SumStmt(sf: bool, dst: Option<Expr>, op: BinOp, a: Expr, b: Expr): Stmt {
    if dst.Some? && !sf then SAssign(dst.value, EBin(op, a, b))
    else if op == CAdd then SAddFlags(dst, a, b)
    else SSubFlags(dst, a, b)
  }

  function SumOf(f: Psr, op: BinOp, x: Word, y: Word): Sum {
    if op == CAdd then AddWithCarry(f, x, y, 0) else Subtract(f, x, y, 0)
  }

  lemma SumRuns(sf: bool, dst: Option<Expr>, op: BinOp, a: Expr, b: Expr, h: Host, f: Psr)
    requires op == CAdd || op == CSub
    requires dst.Some? ==> dst.value.EReg?
    requires h.cpu.cpsr == f.(c := h.cpu.cpsr.c)
    ensures var st, sum := SumStmt(sf, dst, op, a, b), SumOf(f, op, Eval(a, h), Eval(b, h));
            && IsStraight(st)
            && Do(st, h) == Assign(SetPsr(h, if sf || dst.None? then sum.flags else h.cpu.cpsr), dst, sum.res)
  {
    hide Eval, AddFlags, SubFlags, AddWithCarry, Subtract, MulRes, Bitwise, Wrap;
    var x, y := Eval(a, h), Eval(b, h);
    EvalBin(op, a, b, h);
    SumAgrees(h.cpu.cpsr, f, x, y);
    var st := SumStmt(sf, dst, op, a, b);
    if dst.Some? && !sf {
      assert SetPsr(h, h.cpu.cpsr) == h;
    }
  }

  lemma ArithmeticBody(op: DpOp, sf: bool, rd: RegNo, rn: RegNo, src: Operand, s: State, f: Psr, x: Word, y: Shifter)
    requires !IsLogical(op) && (IsTest(op) || rd != PC) && DpBody(op, sf, rd, rn, src, s.pc).Some?
    ensures var a, b := RegE(rn, s.pc), SrcE(src, s.pc).value;
            var dst := if IsTest(op) then None else Some(EReg(rd));
            var cop := if op == ADD || op == CMN then CAdd else CSub;
            && SrcE(src, s.pc).Some?
            && DpBody(op, sf, rd, rn, src, s.pc).value ==
                 [if op == RSB then SumStmt(sf, dst, cop, b, a) else SumStmt(sf, dst, cop, a, b)]
            && DpResult(op, f, x, y) == (if op == RSB then SumOf(f, cop, y.value, x) else SumOf(f, cop, x, y.value))
  {
    hide SrcE, AddWithCarry, Subtract, WithNZ;
  }

  lemma ArithmeticRuns(op: DpOp, sf: bool, rd: RegNo, rn: RegNo, src: Operand, h: Host, s: State)
    requires h.cpu.r == s.cpu.r && h.cpu.cpsr == s.cpu.cpsr.(c := h.cpu.cpsr.c)
    requires !IsLogical(op) && (IsTest(op) || rd != PC)
    requires DpBody(op, sf, rd, rn, src, s.pc).Some? && (src.ShiftImm? ==> ShiftRendered(src.amount))
    ensures var body := DpBody(op, sf, rd, rn, src, s.pc).value;
            var sum := DpResult(op, s.cpu.cpsr, RegVal(s.pc, s.cpu.r, rn),
                                ShifterOperand(src, s.pc, s.cpu.r, s.cpu.cpsr.c));
            && AllStraight(body)
            && DoAll(body, h) == Assign(SetPsr(h, if sf || IsTest(op) then sum.flags else h.cpu.cpsr),
                                        if IsTest(op) then None else Some(EReg(rd)), sum.res)
  {
    hide Eval, SrcE, ShifterOperand, RegVal, DpResult, DoAll, SumOf, SumStmt, DpBody, Do;
    var x, y := RegVal(s.pc, s.cpu.r, rn), ShifterOperand(src, s.pc, s.cpu.r, s.cpu.cpsr.c);
    ArithmeticBody(op, sf, rd, rn, src, s, s.cpu.cpsr, x, y);
    var a, b := RegE(rn, s.pc), SrcE(src, s.pc).value;
    OperandAgrees(src, s.pc, h, s.cpu.cpsr.c);
    EvalReg(rn, s.pc, h);
    var dst := if IsTest(op) then None else Some(EReg(rd));
    var cop := if op == ADD || op == CMN then CAdd else CSub;
    var e1, e2 := if op == RSB then b else a, if op == RSB then a else b;
    SumRuns(sf, dst, cop, e1, e2, h, s.cpu.cpsr);
    DoOne(SumStmt(sf, dst, cop, e1, e2), h);
  }

  lemma ArithmeticSim(op: DpOp, sf: bool, rd: RegNo, rn: RegNo, src: Operand, h: Host, s: State, stale: bool)
    requires Agree(h, s, stale) && !IsLogical(op) && (IsTest(op) || rd != PC)
    requires DpBody(op, sf, rd, rn, src, s.pc).Some? && (src.ShiftImm? ==> ShiftRendered(src.amount))
    ensures var body := DpBody(op, sf, rd, rn, src, s.pc).value;
            && AllStraight(body) && ExecDp(s, op, sf, rd, rn, src).Some?
            && Agree(DoAll(body, h), ExecDp(s, op, sf, rd, rn, src).value, if sf || IsTest(op) then false else stale)
  {
    hide ShifterOperand, RegVal, DpResult, ExecDp, DoAll, DpBody, Do;
    ArithmeticRuns(op, sf, rd, rn, src, h, s);
    var sum := DpResult(op, s.cpu.cpsr, RegVal(s.pc, s.cpu.r, rn),
                        ShifterOperand(src, s.pc, s.cpu.r, s.cpu.cpsr.c));
    DpExecutes(s, op, sf, rd, rn, src, sum);
    if !IsTest(op) {
      WriteAgrees(h, s, if sf then false else stale, rd, sum.res, if sf then sum.flags else h.cpu.cpsr,
                  if sf then sum.flags else s.cpu.cpsr, Wrap(s.pc + 4));
    }
  }

  lemma DpRendered(op: DpOp, sf: bool, rd: RegNo, rn: RegNo, src: Operand, pc: Word)
    ensures DpBody(op, sf, rd, rn, src, pc).Some? <==> !Stubbed(Dp(op, sf, rd, rn, src))
  {
  }

  lemma DpSim(op: DpOp, sf: bool, rd: RegNo, rn: RegNo, src: Operand, h: Host, s: State, stale: bool)
    requires Agree(h, s, stale) && Liftable(Dp(op, sf, rd, rn, src)) && !Stubbed(Dp(op, sf, rd, rn, src))
    ensures DpBody(op, sf, rd, rn, src, s.pc).Some?
    ensures var body := DpBody(op, sf, rd, rn, src, s.pc).value;
            && AllStraight(body) && ExecDp(s, op, sf, rd, rn, src).Some?
            && Agree(DoAll(body, h), ExecDp(s, op, sf, rd, rn, src).value, StaleAfter(Dp(op, sf, rd, rn, src), stale))
            && ExecDp(s, op, sf, rd, rn, src).value.pc == Wrap(s.pc + 4)
  {
    hide DpBody, DoAll, ShifterOperand, RegVal, DpResult;
    DpRendered(op, sf, rd, rn, src, s.pc);
    if !IsLogical(op) {
      ArithmeticSim(op, sf, rd, rn, src, h, s, stale);
    } else if IsTest(op) {
      LogicalTestSim(op, sf, rd, rn, src, h, s, stale);
    } else {
      LogicalSim(op, sf, rd, rn, src, h, s, stale);
    }
  }
}
