/** Simulation of multiplications, loads and stores. */
module MemorySim {
  import opened Words
  import opened Shifts
  import opened Guest
  import opened Machine
  import opened Wrappers
  import opened Arm
  import opened CCode
  import opened Lift
  import opened Segments
  import opened Simulation

  // ---- multiplication ----

  lemma MulAdds(x: Word, y: Word, z: Word)
    ensures Wrap(MulRes(x, y, 0) + z) == MulRes(x, y, z)
  {
    WrapAdds((x as int) * (y as int), z);
  }

  lemma MulSim(env: Env, sf: bool, rd: RegNo, e: Expr, res: Word, h: Host, s: State, stale: bool)
    requires Agree(h, s, stale) && rd != PC && Eval(e, h) == res
    ensures var body := WithNZ(RegE(rd, s.pc), e, sf);
            && AllStraight(body) && ExecMul(s, env, sf, rd, res).Some?
            && Agree(DoAll(body, h), ExecMul(s, env, sf, rd, res).value, stale || sf)
            && ExecMul(s, env, sf, rd, res).value.pc == Wrap(s.pc + 4)
  {
    hide Eval, WithNZ, DoAll, SetNZ, NZ;
    EvalReg(rd, s.pc, h);
    WithNZRuns(rd, e, sf, h);
    FlagsAgree(h.cpu.cpsr, s.cpu.cpsr, res);
    var hf := if sf then SetNZ(h.cpu.cpsr, res) else h.cpu.cpsr;
    var af := if sf then NZ(s.cpu.cpsr, res).(c := env.mulCarry(s.pc, s.cpu.r)) else s.cpu.cpsr;
    WriteAgrees(h, s, stale || sf, rd, res, hf, af, Wrap(s.pc + 4));
  }

  lemma MulExprs(rm: RegNo, rs: RegNo, rn: RegNo, pc: Word, h: Host)
    requires rm != PC && rs != PC && rn != PC
    ensures Eval(EBin(CMul, RegE(rm, pc), RegE(rs, pc)), h) == MulRes(h.cpu.r[rm], h.cpu.r[rs], 0)
    ensures Eval(EBin(CAdd, EBin(CMul, RegE(rm, pc), RegE(rs, pc)), RegE(rn, pc)), h)
            == MulRes(h.cpu.r[rm], h.cpu.r[rs], h.cpu.r[rn])
  {
    hide Eval, MulRes, Bitwise;
    EvalReg(rm, pc, h);
    EvalReg(rs, pc, h);
    EvalReg(rn, pc, h);
    EvalBin(CMul, RegE(rm, pc), RegE(rs, pc), h);
    EvalBin(CAdd, EBin(CMul, RegE(rm, pc), RegE(rs, pc)), RegE(rn, pc), h);
    MulAdds(h.cpu.r[rm], h.cpu.r[rs], h.cpu.r[rn]);
  }

  /** 64-bit accumulation in one addition, or by halves with a carry between them. */
  lemma AccumulateHalves(prod: int, lo: Word, hi: Word)
    ensures var p := prod % 0x1_0000_0000_0000_0000;
            var sum := (prod + lo + 0x1_0000_0000 * hi) % 0x1_0000_0000_0000_0000;
            var l := p % 0x1_0000_0000 + lo;
            && sum % 0x1_0000_0000 == Wrap(l)
            && sum / 0x1_0000_0000 == Wrap(p / 0x1_0000_0000 + hi + l / 0x1_0000_0000)
  {
    var w := 0x1_0000_0000;
    var p, q := prod % 0x1_0000_0000_0000_0000, prod / 0x1_0000_0000_0000_0000;
    var l := p % w + lo;
    var u := p / w + hi + l / w;
    assert prod + lo + w * hi == 0x1_0000_0000_0000_0000 * q + w * u + l % w;
    DivUnique(prod + lo + w * hi, 0x1_0000_0000_0000_0000, q + u / w, w * (u % w) + l % w);
  }

  lemma LongProductAgrees(signed: bool, acc: bool, lo: Word, hi: Word, x: Word, y: Word)
    ensures var p := Product64(signed, x, y);
            var c := LongProduct(signed, acc, lo, hi, x, y);
            var l := p % 0x1_0000_0000 + (if acc then lo else 0);
            && c % 0x1_0000_0000 == Wrap(l)
            && c / 0x1_0000_0000 == Wrap(p / 0x1_0000_0000 + (if acc then hi else 0) + l / 0x1_0000_0000)
  {
    var prod := if signed then Signed(x) * Signed(y) else (x as int) * (y as int);
    AccumulateHalves(prod, if acc then lo else 0, if acc then hi else 0);
  }

  lemma MulLongSim(env: Env, op: Op, h: Host, s: State, stale: bool)
    requires Agree(h, s, stale) && op.MulLong? && Predictable(op) && Liftable(op)
    ensures var st := SMulLong(op.signed, op.acc, RegE(op.lo, s.pc), RegE(op.hi, s.pc),
                               RegE(op.rm, s.pc), RegE(op.rs, s.pc));
            && AllStraight([st]) && ExecMulLong(s, env, op).Some?
            && Agree(DoAll([st], h), ExecMulLong(s, env, op).value, stale)
            && ExecMulLong(s, env, op).value.pc == Wrap(s.pc + 4)
  {
    hide Eval, LongProduct, Product64;
    EvalReg(op.lo, s.pc, h);
    EvalReg(op.hi, s.pc, h);
    EvalReg(op.rm, s.pc, h);
    EvalReg(op.rs, s.pc, h);
    LongProductAgrees(op.signed, op.acc, s.cpu.r[op.lo], s.cpu.r[op.hi], s.cpu.r[op.rm], s.cpu.r[op.rs]);
    DoOne(SMulLong(op.signed, op.acc, EReg(op.lo), EReg(op.hi), EReg(op.rm), EReg(op.rs)), h);
  }

  // ---- addresses ----

  lemma PlusAgrees(e: Expr, d: int, h: Host)
    ensures Eval(PlusE(e, d), h) == Wrap(Eval(e, h) + d)
  {
    hide Eval, MulRes, Bitwise;
    if d >= 0 {
      EvalBin(CAdd, e, EConst(Wrap(d)), h);
      EvalConst(Wrap(d), h);
      WrapAdds(Eval(e, h), d);
    } else {
      EvalBin(CSub, e, EConst(Wrap(-d)), h);
      EvalConst(Wrap(-d), h);
      WrapAdds(Eval(e, h), -d);
    }
  }

  lemma EvalConst(v: Word, h: Host)
    ensures Eval(EConst(v), h) == v
  {
  }

  lemma OffsetAgrees(rn: RegNo, off: Offset, pc: Word, h: Host)
    requires off.ByReg? ==> ShiftRendered(off.amount)
    ensures Eval(OffsetE(RegE(rn, pc), off, pc), h) == Moved(rn, off, pc, h.cpu.r)
  {
    hide Eval, MulRes, Bitwise, Shifted;
    EvalReg(rn, pc, h);
    match off
    case ByImm(disp) =>
      PlusAgrees(RegE(rn, pc), disp, h);
      assert Wrap(RegVal(pc, h.cpu.r, rn)) == RegVal(pc, h.cpu.r, rn);
    case ByReg(sub, rm, kind, amount) =>
      EvalReg(rm, pc, h);
      EvalShift(kind, RegE(rm, pc), amount, h);
      EvalBin(if sub then CSub else CAdd, RegE(rn, pc), ShiftE(kind, RegE(rm, pc), amount), h);
  }

  lemma PostAgrees(rn: RegNo, off: Offset, pc: Word, h: Host)
    requires off.ByReg? ==> off.amount == 0
    ensures Eval(PostE(RegE(rn, pc), off, pc), h) == Moved(rn, off, pc, h.cpu.r)
  {
    hide Eval, MulRes, Bitwise;
    EvalReg(rn, pc, h);
    match off
    case ByImm(disp) => PlusAgrees(RegE(rn, pc), disp, h);
    case ByReg(sub, rm, _, _) =>
      EvalReg(rm, pc, h);
      EvalBin(if sub then CSub else CAdd, RegE(rn, pc), RegE(rm, pc), h);
  }

  predicate OffsetRendered(off: Offset, ix: Index) {
    && (off.ByReg? ==> ShiftRendered(off.amount))
    && (ix == PostIndex && off.ByReg? ==> off.amount == 0)
  }

  lemma AccessAgrees(rn: RegNo, off: Offset, ix: Index, pc: Word, h: Host)
    requires OffsetRendered(off, ix)
    ensures Eval(AccessE(rn, off, ix, pc), h) == AccessAddr(rn, off, ix, pc, h.cpu.r)
  {
    hide Eval, Moved, OffsetE;
    EvalReg(rn, pc, h);
    OffsetAgrees(rn, off, pc, h);
  }

  /** The base update, run in a state where base and offset registers still hold their values. */
  lemma UpdateRuns(rn: RegNo, off: Offset, ix: Index, pc: Word, h: Host)
    requires OffsetRendered(off, ix) && (ix != Plain ==> rn != PC)
    ensures var b := Update(rn, off, ix, pc);
            && AllStraight(b)
            && DoAll(b, h) == (if ix == Plain then h else SetReg(h, rn, Moved(rn, off, pc, h.cpu.r)))
  {
    hide Eval, Moved, OffsetE, PostE;
    EvalReg(rn, pc, h);
    if ix == PreIndex {
      OffsetAgrees(rn, off, pc, h);
      DoOne(SAssign(EReg(rn), OffsetE(RegE(rn, pc), off, pc)), h);
    } else if ix == PostIndex {
      PostAgrees(rn, off, pc, h);
      DoOne(SAssign(EReg(rn), PostE(RegE(rn, pc), off, pc)), h);
    }
  }

  lemma MovedIgnores(rn: RegNo, off: Offset, pc: Word, r: Regs, rd: RegNo, v: Word)
    requires rd != rn && (off.ByReg? ==> off.rm != rd)
    ensures Moved(rn, off, pc, r[rd := v]) == Moved(rn, off, pc, r)
  {
    hide Shifted;
  }

  // ---- loads ----

  lemma EvalLoad(size: Size, signed: bool, a: Expr, h: Host)
    ensures Eval(ELoad(size, signed, a), h) == LoadVal(h.cpu.mem, size, signed, Eval(a, h))
  {
    hide Bin, CShift, AmountShift, LoadVal;
  }

  /** The state after an ARM load into a register other than the program counter. */
  lemma LoadExecutes(s: State, op: Op)
    requires op.Load? && op.rd != PC && Predictable(op)
    ensures var r := s.cpu.r;
            var v := LoadVal(s.cpu.mem, op.size, op.signed, AccessAddr(op.rn, op.off, op.ix, s.pc, r));
            var r1 := r[op.rd := v];
            ExecLoad(s, op) == Some(State(
              s.cpu.(r := if op.ix == Plain then r1 else r1[op.rn := Moved(op.rn, op.off, s.pc, r)]),
              Wrap(s.pc + 4), s.log))
  {
    hide LoadVal, AccessAddr, Moved;
    var r := s.cpu.r;
    var v := LoadVal(s.cpu.mem, op.size, op.signed, AccessAddr(op.rn, op.off, op.ix, s.pc, r));
    var m := Moved(op.rn, op.off, s.pc, r);
    if op.ix != Plain {
      assert r[op.rn := m][op.rd := v] == r[op.rd := v][op.rn := m];
    }
  }

  predicate LiteralIntact(op: Op, pc: Word, segs: seq<Segment>, r: Regs, m: Mem) {
    Literal(op, pc, segs).Some? ==>
      R32(m, AccessAddr(op.rn, op.off, op.ix, pc, r)) == Literal(op, pc, segs).value
  }

  lemma LiteralSim(op: Op, segs: seq<Segment>, h: Host, s: State, stale: bool)
    requires Agree(h, s, stale) && op.Load? && op.rd != PC && Predictable(op)
    requires Literal(op, s.pc, segs).Some? && LiteralIntact(op, s.pc, segs, s.cpu.r, s.cpu.mem)
    ensures var body := LoadBody(op, s.pc, segs);
            && AllStraight(body) && ExecLoad(s, op).Some?
            && Agree(DoAll(body, h), ExecLoad(s, op).value, stale)
            && ExecLoad(s, op).value.pc == Wrap(s.pc + 4)
  {
    hide Eval, AccessAddr, Moved, AccessE, Update, ReadWord, ExecLoad, R32;
    LoadExecutes(s, op);
    EvalReg(op.rd, s.pc, h);
    var v := Literal(op, s.pc, segs).value;
    EvalConst(v, h);
    DoOne(SAssign(EReg(op.rd), EConst(v)), h);
  }

  lemma LoadSim(op: Op, segs: seq<Segment>, h: Host, s: State, stale: bool)
    requires Agree(h, s, stale) && op.Load? && op.rd != PC && Predictable(op) && Liftable(op)
    requires LiteralIntact(op, s.pc, segs, s.cpu.r, s.cpu.mem)
    ensures var body := LoadBody(op, s.pc, segs);
            && AllStraight(body) && ExecLoad(s, op).Some?
            && Agree(DoAll(body, h), ExecLoad(s, op).value, stale)
            && ExecLoad(s, op).value.pc == Wrap(s.pc + 4)
  {
    hide Eval, AccessAddr, Moved, AccessE, Update, Literal, ExecLoad, LoadVal, DoAll;
    if Literal(op, s.pc, segs).Some? {
      LiteralSim(op, segs, h, s, stale);
    } else {
      LoadExecutes(s, op);
      EvalReg(op.rd, s.pc, h);
      AccessAgrees(op.rn, op.off, op.ix, s.pc, h);
      var e := ELoad(op.size, op.signed, AccessE(op.rn, op.off, op.ix, s.pc));
      EvalLoad(op.size, op.signed, AccessE(op.rn, op.off, op.ix, s.pc), h);
      DoOne(SAssign(EReg(op.rd), e), h);
      var h1 := SetReg(h, op.rd, Eval(e, h));
      UpdateRuns(op.rn, op.off, op.ix, s.pc, h1);
      DoAllConcat([SAssign(EReg(op.rd), e)], Update(op.rn, op.off, op.ix, s.pc), h);
      if op.ix != Plain {
        MovedIgnores(op.rn, op.off, s.pc, h.cpu.r, op.rd, Eval(e, h));
      }
    }
  }

  // ---- stores ----

  lemma StoreSim(op: Op, h: Host, s: State, stale: bool)
    requires Agree(h, s, stale) && op.Store? && Predictable(op) && Liftable(op)
    ensures var body := StoreBody(op, s.pc);
            && AllStraight(body) && ExecStore(s, op).Some?
            && Agree(DoAll(body, h), ExecStore(s, op).value, stale)
            && ExecStore(s, op).value.pc == Wrap(s.pc + 4)
  {
    hide Eval, AccessAddr, Moved, AccessE, Update, StoreVal, DoAll;
    EvalReg(op.rd, s.pc, h);
    AccessAgrees(op.rn, op.off, op.ix, s.pc, h);
    var st := SStore(op.size, AccessE(op.rn, op.off, op.ix, s.pc), RegE(op.rd, s.pc));
    DoOne(st, h);
    UpdateRuns(op.rn, op.off, op.ix, s.pc, Do(st, h));
    DoAllConcat([st], Update(op.rn, op.off, op.ix, s.pc), h);
  }
}
