/** Where the emitted C stops meaning what ARM means: for each of these forms the
    lifter renders differently, the exact states in which the two still agree. */
module Limits {
  import opened Words
  import opened Shifts
  import opened Guest
  import opened Machine
  import opened Wrappers
  import opened Segments
  import opened Arm
  import opened CCode
  import opened Lift
  import opened Simulation
  import opened MemorySim
  import opened BlockSim
  import opened Translation
  import opened Correctness
  import opened ImageFile
  import opened Literals
  import opened Abi

  lemma WordsDiffer(x: int, d: int)
    requires 0 < d < 0x1_0000_0000
    ensures Wrap(x + d) != Wrap(x)
  {
  }

  lemma WordItself(w: Word)
    ensures Wrap(w) == w
  {
  }

  /** Moving a base by two words gives the same address only for the same word. */
  lemma MoveInjective(b: Word, x: Word, y: Word)
    ensures Wrap(b + x) == Wrap(b + y) <==> x == y
    ensures Wrap(b - x) == Wrap(b - y) <==> x == y
  {
    if x < y {
      WordsDiffer(b + x, y - x);
      WordsDiffer(b - y, y - x);
    } else if y < x {
      WordsDiffer(b + y, x - y);
      WordsDiffer(b - x, x - y);
    }
  }

  // ---- block transfers ----

  /** Writeback takes its sign from the lowest offset, which is 0 for one register
      decremented after: exactly that case is wrong, in every state. */
  lemma WritebackExact(load: bool, mode: BlockMode, rn: RegNo, regs: set<RegNo>, h: Host, s: State, stale: bool)
    requires Agree(h, s, stale) && Predictable(Block(load, mode, rn, true, regs))
    requires AccessOk(Block(load, mode, rn, true, regs), s.pc, s.cpu.r, s.cpu.mem)
    ensures var body := BlockStraight(load, mode, rn, true, Ascending(regs), s.pc);
            && AllStraight(body) && ExecBlock(s, load, mode, rn, true, regs).Some?
            && (Agree(DoAll(body, h), ExecBlock(s, load, mode, rn, true, regs).value, stale)
                <==> !(mode == DA && Count(regs) == 1))
  {
    hide Eval, Ascending, LoadBlock, StoreBlock, BlockMoves, DoAll, R32, BlockAccessOk, Wrap;
    if !(mode == DA && Count(regs) == 1) {
      hide BlockStraight, BlockStart, BlockBase, Low;
      BlockInsSim(load, mode, rn, true, regs, h, s, stale);
    } else {
      OneDown(load, rn, regs, h, s);
    }
  }

  lemma OneDown(load: bool, rn: RegNo, regs: set<RegNo>, h: Host, s: State)
    requires h.cpu.r == s.cpu.r && h.cpu.mem == s.cpu.mem && rn != PC && Count(regs) == 1
    requires BlockAccessOk(s.cpu.mem, BlockStart(DA, s.cpu.r[rn], Count(regs)), Count(regs))
    ensures var body := BlockStraight(load, DA, rn, true, Ascending(regs), s.pc);
            && AllStraight(body) && ExecBlock(s, load, DA, rn, true, regs).Some?
            && DoAll(body, h).cpu.r[rn] != ExecBlock(s, load, DA, rn, true, regs).value.cpu.r[rn]
  {
    hide Eval, Ascending, LoadBlock, StoreBlock, BlockMoves, DoAll, R32, Wrap, BlockAccessOk;
    EvalReg(rn, s.pc, h);
    DoOne(SBase(RegE(rn, s.pc)), h);
    var h1 := h.(base := h.cpu.r[rn]);
    BlockMovesRun(load, DA, regs, h1);
    var moves := BlockMoves(load, Ascending(regs), Low(DA, 1), 1);
    var h2 := DoAll(moves, h1);
    BlockUpdateIs(DA, rn, 1, s.pc, h2);
    DoAllConcat([SBase(RegE(rn, s.pc))], moves, h);
    DoAllConcat([SBase(RegE(rn, s.pc))] + moves, BlockUpdate(DA, rn, true, 1, s.pc), h);
    WordsDiffer(h.cpu.r[rn] as int - 4, 8);
  }

  /** A push whose list holds sp stores the lowered sp instead: exactly such lists are wrong. */
  lemma PushSpExact(regs: set<RegNo>, h: Host, s: State, stale: bool)
    requires Agree(h, s, stale) && Predictable(Push(regs)) && FrameFits(s.cpu, regs)
    ensures var body := PushBody(Ascending(regs));
            && AllStraight(body) && ExecBlock(s, false, DB, SP, true, regs).Some?
            && (Agree(DoAll(body, h), ExecBlock(s, false, DB, SP, true, regs).value, stale) <==> SP !in regs)
  {
    hide Ascending, StoreBlock, DoAll, PushBody, AllStraight, Wrap;
    if SP !in regs {
      hide BlockAccessOk;
      PushSim(regs, h, s, stale);
    } else {
      hide BlockAccessOk, R32, Rank;
      PushBodyRuns(regs, h);
      var start := Wrap(h.cpu.r[SP] - 4 * Count(regs));
      StoredWord(h.cpu.mem, start, regs, h.cpu.r, SP);
      StoredWord(h.cpu.mem, start, regs, h.cpu.r[SP := start], SP);
      CountPositive(regs);
      var sp: int := h.cpu.r[SP];
      WordsDiffer(sp - 4 * Count(regs), 4 * Count(regs));
      WordItself(h.cpu.r[SP]);
    }
  }

  // ---- loads and stores with writeback ----

  /** Base and offset moved by the emitted post-index update, which drops the shift. */
  lemma PostUpdateRuns(rn: RegNo, off: Offset, pc: Word, h: Host)
    requires rn != PC && off.ByReg? && off.rm != PC
    ensures var b: int, x: int := h.cpu.r[rn], h.cpu.r[off.rm];
            && AllStraight(Update(rn, off, PostIndex, pc))
            && DoAll(Update(rn, off, PostIndex, pc), h)
               == SetReg(h, rn, if off.sub then Wrap(b - x) else Wrap(b + x))
  {
    hide Eval, MulRes, Bitwise, Wrap;
    var bin := if off.sub then CSub else CAdd;
    EvalBin(bin, EReg(rn), EReg(off.rm), h);
    EvalPlain(rn, h);
    EvalPlain(off.rm, h);
    DoOne(SAssign(EReg(rn), EBin(bin, EReg(rn), EReg(off.rm))), h);
  }

  /** The emitted post-index update drops the shift of its offset register: a store is
      right exactly when shifting that register changes nothing. */
  lemma PostShiftStoreExact(op: Op, h: Host, s: State, stale: bool)
    requires Agree(h, s, stale) && op.Store? && Predictable(op) && op.ix == PostIndex && op.off.ByReg?
    ensures var body := StoreBody(op, s.pc);
            && AllStraight(body) && ExecStore(s, op).Some?
            && (Agree(DoAll(body, h), ExecStore(s, op).value, stale)
                <==> Shifted(op.off.kind, s.cpu.r[op.off.rm], op.off.amount) == s.cpu.r[op.off.rm])
  {
    hide Eval, StoreVal, DoAll, Shifted, Wrap, Update;
    var rn, rm := op.rn, op.off.rm;
    EvalReg(op.rd, s.pc, h);
    EvalReg(rn, s.pc, h);
    var st := SStore(op.size, RegE(rn, s.pc), RegE(op.rd, s.pc));
    DoOne(st, h);
    var h1 := Do(st, h);
    PostUpdateRuns(rn, op.off, s.pc, h1);
    DoAllConcat([st], Update(rn, op.off, PostIndex, s.pc), h);
    var x, y := s.cpu.r[rm], Shifted(op.off.kind, s.cpu.r[rm], op.off.amount);
    MoveInjective(s.cpu.r[rn], x, y);
    var b: int := s.cpu.r[rn];
    assert DoAll(StoreBody(op, s.pc), h).cpu.r[rn] == if op.off.sub then Wrap(b - x) else Wrap(b + x);
    assert ExecStore(s, op).value.cpu.r[rn] == if op.off.sub then Wrap(b - y) else Wrap(b + y);
  }

  /** A post-indexed load with a register offset, whatever the shift and even into the
      offset register itself: right exactly when the unshifted register, as it is after
      the load, is the shifted register as it was before. */
  lemma PostShiftLoadExact(op: Op, segs: seq<Segment>, h: Host, s: State, stale: bool)
    requires Agree(h, s, stale) && op.Load? && op.rd != PC && Predictable(op) && op.ix == PostIndex && op.off.ByReg?
    ensures var body := LoadBody(op, s.pc, segs);
            var v := LoadVal(s.cpu.mem, op.size, op.signed, s.cpu.r[op.rn]);
            && AllStraight(body) && ExecLoad(s, op).Some?
            && (Agree(DoAll(body, h), ExecLoad(s, op).value, stale)
                <==> Shifted(op.off.kind, s.cpu.r[op.off.rm], op.off.amount)
                     == if op.off.rm == op.rd then v else s.cpu.r[op.off.rm])
  {
    hide Eval, Update, ExecLoad, LoadVal, DoAll, Shifted, Wrap;
    LoadExecutes(s, op);
    EvalReg(op.rd, s.pc, h);
    EvalReg(op.rn, s.pc, h);
    var rn, rm := op.rn, op.off.rm;
    var e := ELoad(op.size, op.signed, RegE(rn, s.pc));
    EvalLoad(op.size, op.signed, RegE(rn, s.pc), h);
    DoOne(SAssign(EReg(op.rd), e), h);
    var h1 := SetReg(h, op.rd, Eval(e, h));
    PostUpdateRuns(rn, op.off, s.pc, h1);
    DoAllConcat([SAssign(EReg(op.rd), e)], Update(rn, op.off, PostIndex, s.pc), h);
    var x, y := h1.cpu.r[rm], Shifted(op.off.kind, s.cpu.r[rm], op.off.amount);
    MoveInjective(s.cpu.r[rn], x, y);
    var b: int := s.cpu.r[rn];
    assert DoAll(LoadBody(op, s.pc, segs), h).cpu.r[rn] == if op.off.sub then Wrap(b - x) else Wrap(b + x);
    assert ExecLoad(s, op).value.cpu.r[rn] == if op.off.sub then Wrap(b - y) else Wrap(b + y);
  }

  /** A load into its own offset register, with writeback: the emitted update uses the
      loaded value, and is right exactly when that gives the same offset. */
  lemma LoadIntoOffsetExact(op: Op, segs: seq<Segment>, h: Host, s: State, stale: bool)
    requires Agree(h, s, stale) && op.Load? && op.rd != PC && Predictable(op) && op.ix != Plain
    requires op.off.ByReg? && op.off.rm == op.rd && OffsetRendered(op.off, op.ix)
    ensures var body := LoadBody(op, s.pc, segs);
            var v := LoadVal(s.cpu.mem, op.size, op.signed, AccessAddr(op.rn, op.off, op.ix, s.pc, s.cpu.r));
            && AllStraight(body) && ExecLoad(s, op).Some?
            && (Agree(DoAll(body, h), ExecLoad(s, op).value, stale)
                <==> Shifted(op.off.kind, v, op.off.amount) == Shifted(op.off.kind, s.cpu.r[op.rd], op.off.amount))
  {
    hide Eval, AccessAddr, AccessE, Update, ExecLoad, LoadVal, DoAll, Shifted, Wrap, OffsetRendered;
    LoadExecutes(s, op);
    EvalReg(op.rd, s.pc, h);
    AccessAgrees(op.rn, op.off, op.ix, s.pc, h);
    var e := ELoad(op.size, op.signed, AccessE(op.rn, op.off, op.ix, s.pc));
    EvalLoad(op.size, op.signed, AccessE(op.rn, op.off, op.ix, s.pc), h);
    DoOne(SAssign(EReg(op.rd), e), h);
    var h1 := SetReg(h, op.rd, Eval(e, h));
    UpdateRuns(op.rn, op.off, op.ix, s.pc, h1);
    DoAllConcat([SAssign(EReg(op.rd), e)], Update(op.rn, op.off, op.ix, s.pc), h);
    var x, y := Shifted(op.off.kind, Eval(e, h), op.off.amount), Shifted(op.off.kind, s.cpu.r[op.rd], op.off.amount);
    MoveInjective(s.cpu.r[op.rn], x, y);
    var b: int := s.cpu.r[op.rn];
    assert DoAll(LoadBody(op, s.pc, segs), h).cpu.r[op.rn] == if op.off.sub then Wrap(b - x) else Wrap(b + x);
    assert ExecLoad(s, op).value.cpu.r[op.rn] == if op.off.sub then Wrap(b - y) else Wrap(b + y);
  }

  // ---- flags ----

  /** The lifter leaves C alone on logical operations that set flags: right exactly
      when the shifter's carry-out is the carry already there. */
  lemma StaleCarryExact(op: DpOp, rd: RegNo, rn: RegNo, src: Operand, h: Host, s: State)
    requires Agree(h, s, false) && IsLogical(op) && Liftable(Dp(op, true, rd, rn, src)) && !src.Rrx?
    ensures var body := DpBody(op, true, rd, rn, src, s.pc);
            && body.Some? && AllStraight(body.value) && ExecDp(s, op, true, rd, rn, src).Some?
            && (Agree(DoAll(body.value, h), ExecDp(s, op, true, rd, rn, src).value, false)
                <==> ShifterOperand(src, s.pc, s.cpu.r, s.cpu.cpsr.c).carry == s.cpu.cpsr.c)
  {
    hide DoAll, ShifterOperand, RegVal, DpResult, Eval, ExecDp, SrcE, LogicalResult, LogicalE, SetNZ;
    SrcRenders(src, s.pc);
    DpSim(op, true, rd, rn, src, h, s, true);
    var b := SrcE(src, s.pc).value;
    var e := LogicalE(op, RegE(rn, s.pc), b);
    var y := ShifterOperand(src, s.pc, s.cpu.r, s.cpu.cpsr.c);
    DpExecutes(s, op, true, rd, rn, src, DpResult(op, s.cpu.cpsr, RegVal(s.pc, s.cpu.r, rn), y));
    LogicalDpResult(op, s.cpu.cpsr, RegVal(s.pc, s.cpu.r, rn), y);
    SetNZMeaning(h.cpu.cpsr, Eval(e, h));
    if IsTest(op) {
      DoOne(SSetNZ(e), h);
    } else {
      EvalReg(rd, s.pc, h);
      WithNZRuns(rd, e, true, h);
    }
  }

  lemma SrcRenders(src: Operand, pc: Word)
    requires !src.Rrx?
    ensures SrcE(src, pc).Some?
  {
  }

  /** The 64-bit result of a long multiplication, from the registers it reads. */
  function Long64(op: Op, r: Regs): (p: int)
    requires op.MulLong?
    ensures 0 <= p < 0x1_0000_0000_0000_0000
  {
    (Product64(op.signed, r[op.rm], r[op.rs]) + (if op.acc then r[op.lo] + 0x1_0000_0000 * (r[op.hi] as int) else 0))
    % 0x1_0000_0000_0000_0000
  }

  lemma ReducedFirst(x: int, y: int)
    ensures (x % 0x1_0000_0000_0000_0000 + y) % 0x1_0000_0000_0000_0000 == (x + y) % 0x1_0000_0000_0000_0000
  {
    var w := 0x1_0000_0000_0000_0000;
    var q, t := x / w, x % w + y;
    DivUnique(x + y, w, q + t / w, t % w);
  }

  lemma LongProductIs(op: Op, r: Regs)
    requires op.MulLong?
    ensures LongProduct(op.signed, op.acc, r[op.lo], r[op.hi], r[op.rm], r[op.rs]) == Long64(op, r)
  {
    var x, y := r[op.rm], r[op.rs];
    ReducedFirst(if op.signed then Signed(x) * Signed(y) else (x as int) * (y as int),
                 if op.acc then r[op.lo] + 0x1_0000_0000 * (r[op.hi] as int) else 0);
  }

  /** N and Z of a long multiplication that sets flags are the sign and the zeroness
      of its 64-bit result; V is open. */
  lemma LongFlags(env: Env, op: Op, s: State)
    requires op.MulLong? && op.s
    ensures var f, p := ExecMulLong(s, env, op).value.cpu.cpsr, Long64(op, s.cpu.r);
            f.n == (p >= 0x8000_0000_0000_0000) && f.z == (p == 0) && f.v == env.mulOverflow(s.pc, s.cpu.r)
  {
    hide Product64, Long64, LongProduct;
    var r := s.cpu.r;
    LongProductIs(op, r);
    LongProductAgrees(op.signed, op.acc, r[op.lo], r[op.hi], r[op.rm], r[op.rs]);
  }

  /** A long multiplication that sets flags is lifted without them: right exactly when
      N and Z already are the sign and the zeroness of its 64-bit result, and V what the
      processor happens to leave there. */
  lemma MulLongFlagsExact(env: Env, op: Op, h: Host, s: State)
    requires Agree(h, s, true) && op.MulLong? && Predictable(op)
    ensures var pc, f, p := s.pc, s.cpu.cpsr, Long64(op, s.cpu.r);
            var st := SMulLong(op.signed, op.acc, RegE(op.lo, pc), RegE(op.hi, pc), RegE(op.rm, pc), RegE(op.rs, pc));
            && AllStraight([st]) && ExecMulLong(s, env, op).Some?
            && (Agree(DoAll([st], h), ExecMulLong(s, env, op).value, true)
                <==> !op.s || (f.n == (p >= 0x8000_0000_0000_0000) && f.z == (p == 0)
                               && f.v == env.mulOverflow(pc, s.cpu.r)))
  {
    hide DoAll, LongProduct, Product64, Eval, Long64;
    var quiet := MulLong(op.signed, op.acc, false, op.lo, op.hi, op.rm, op.rs);
    MulLongSim(env, quiet, h, s, true);
    if op.s { LongFlags(env, op, s); }
    var s0, s1 := ExecMulLong(s, env, quiet).value, ExecMulLong(s, env, op).value;
    assert s1.cpu.r == s0.cpu.r && s1.cpu.mem == s0.cpu.mem && s1.log == s0.log;
    assert s0.cpu.cpsr == s.cpu.cpsr && s1.cpu.cpsr.mode == s.cpu.cpsr.mode;
  }

  // ---- the program counter as a destination ----

  /** A data-processing instruction lifts to C that compiles exactly when it does not
      write the program counter. */
  lemma DpCompilesExact(op: DpOp, s: bool, rd: RegNo, rn: RegNo, src: Operand, pc: Word)
    requires !Stubbed(Dp(op, s, rd, rn, src))
    ensures DpBody(op, s, rd, rn, src, pc).Some?
    ensures (forall st :: st in DpBody(op, s, rd, rn, src, pc).value ==> Compiles(st)) <==> IsTest(op) || rd != PC
  {
    hide SrcE, LogicalE;
    DpRendered(op, s, rd, rn, src, pc);
    assert DpBody(op, s, rd, rn, src, pc).value[0] in DpBody(op, s, rd, rn, src, pc).value;
  }

  // ---- calls ----

  /** `blx lr` sets lr before it reads it, so it always calls the instruction after it.
      Registers agree with ARM's step; the target is ARM's exactly when lr held that
      address already. */
  lemma BlxLrExact(p: Program, env: Env, fuel: nat, cx: Context, item: Item, h: Host, s: State, stale: bool)
    requires item.ins.op == BlxReg(LR) && s.pc == item.addr && s.pc % 4 == 0 && Agree(h, s, stale)
    ensures var next := Wrap(s.pc + 4);
            var linked := SetReg(h, LR, next);
            var t, c := RunBody(p, env, fuel, Emit(item, next, cx).body, h), Call(p, env, fuel, next, linked);
            var s1 := Exec(item.ins.op, env, s);
            && t == (if c.out == Return then c.(out := Next) else c)
            && (s1.Some? ==> Agree(linked, s1.value, stale))
            && (s1.Some? && s1.value.pc == next <==> h.cpu.r[LR] == next)
  {
    hide Eval, Call, RunBody, DoAll, AllStraight, Wrap;
    var next := Wrap(s.pc + 4);
    LinkRuns(next, h);
    var linked := SetReg(h, LR, next);
    EvalReg(LR, item.addr, linked);
    CallRuns(p, env, fuel, EReg(LR), [], linked);
    var pre := [SAssign(EReg(LR), EConst(next))];
    assert Emit(item, next, cx).body == pre + ([SCall(EReg(LR))] + []);
    RunStraight(p, env, fuel, pre, [SCall(EReg(LR))] + [], h);
    NextAligned4(s.pc);
  }

  lemma NextAligned4(pc: Word)
    requires pc % 4 == 0
    ensures Wrap(pc + 4) % 4 == 0
  {
  }

  /** Accessing with a base already moved reads one offset further on. */
  lemma AccessTwice(rn: RegNo, off: Offset, ix: Index, pc: Word, r: Regs)
    requires rn != PC && ix != Plain && (off.ByReg? ==> off.rm != rn)
    ensures AccessAddr(rn, off, ix, pc, r[rn := Moved(rn, off, pc, r)])
            == Wrap(AccessAddr(rn, off, ix, pc, r) + OffsetVal(off, pc, r))
  {
    hide Shifted, Wrap;
    WrapAdds(r[rn] + OffsetVal(off, pc, r), OffsetVal(off, pc, r));
  }

  /** A load into the program counter with writeback moves its base first, so the emitted
      call, after which the function returns, goes to the word one offset further on.
      Registers agree with ARM's step; the target is ARM's exactly when that word is the
      aligned form of the one ARM loads. */
  lemma LoadPcWritebackExact(p: Program, env: Env, fuel: nat, op: Op, segs: seq<Segment>, h: Host, s: State,
                             stale: bool)
    requires op.Load? && op.size == Word4 && op.rd == PC && op.ix != Plain && OffsetRendered(op.off, op.ix)
    requires Predictable(op) && AccessOk(op, s.pc, s.cpu.r, s.cpu.mem) && Agree(h, s, stale)
    ensures var pc, r, m := s.pc, s.cpu.r, s.cpu.mem;
            var a := AccessAddr(op.rn, op.off, op.ix, pc, r);
            var called, wanted := R32(m, Wrap(a + OffsetVal(op.off, pc, r))), R32(m, a);
            var h1 := SetReg(h, op.rn, Moved(op.rn, op.off, pc, r));
            var s1 := Exec(op, env, s);
            && RunBody(p, env, fuel, LoadBody(op, pc, segs), h) == Call(p, env, fuel, called, h1)
            && s1.Some? && Agree(h1, s1.value, stale)
            && (called == s1.value.pc <==> called == wanted - wanted % 4)
  {
    hide Eval, Call, RunBody, DoAll, AllStraight, AccessAddr, AccessE, Update, R32, Moved, OffsetRendered, AccessOk,
         OffsetVal, Wrap;
    var e := ELoad(Word4, false, AccessE(op.rn, op.off, op.ix, s.pc));
    UpdateRuns(op.rn, op.off, op.ix, s.pc, h);
    var h1 := SetReg(h, op.rn, Moved(op.rn, op.off, s.pc, h.cpu.r));
    AccessTwice(op.rn, op.off, op.ix, s.pc, h.cpu.r);
    EvalLoad(Word4, false, AccessE(op.rn, op.off, op.ix, s.pc), h1);
    AccessAgrees(op.rn, op.off, op.ix, s.pc, h1);
    CallRuns(p, env, fuel, e, [SReturn], h1);
    assert [SCall(e)] + [SReturn] == [SCall(e), SReturn];
    RunStraight(p, env, fuel, Update(op.rn, op.off, op.ix, s.pc), [SCall(e), SReturn], h);
    assert LoadBody(op, s.pc, segs) == Update(op.rn, op.off, op.ix, s.pc) + [SCall(e), SReturn];
  }

  /** A `bx` marked as a call continues at the next line when its callee returns. The ARM
      machine, which comes back to the address in lr, is there exactly when lr held the
      address after the `bx`, wherever the `mov lr, pc` stands. */
  lemma MarkedCallExact(src: Source, code: Code, env: Env, fuel: nat, fn: Word, i: nat, target: Word, h: Host,
                        s: State, stale: bool)
    returns (n: nat, s1: State)
    requires SourceOk(src, code) && fn in src.fns && i < |Decoded(src.fns[fn])|
    requires var item := Decoded(src.fns[fn])[i];
             && IsIdiom(Decoded(src.fns[fn]), i) && item.ins.op.Bx? && item.ins.op.rm != LR
             && s.pc == item.addr && CcTest(item.ins.cond, h.cpu.cpsr) && (ReadsCarry(item.ins.cond) ==> !stale)
    requires Agree(h, s, stale) && h.cpu.r[LR] % 4 == 0
    requires target == TargetOf(Decoded(src.fns[fn])[i].ins.op, s.pc, h.cpu.r, h.cpu.mem)
    requires var c := Call(Lifted(src), env, fuel, target, h);
             c.out == Return && Disciplined(src, stale, c.visits)
    ensures var c := Call(Lifted(src), env, fuel, target, h);
            && RunBody(Lifted(src), env, fuel, EmitAt(src, fn, i).body, h) == c.(out := Next)
            && Run(code, env, n, s) == Some(s1) && Agree(c.host, s1, StaleAtEnd(src, stale, c.visits))
            && (s1.pc == s.pc as int + 4 <==> h.cpu.r[LR] == s.pc as int + 4)
  {
    hide Decoded, ContextOf, Lifted, RunBody, SourceOk, Emit, TargetOf, Exec, StaleAtEnd, Disciplined, Run, Call,
         Predictable, Liftable, AccessOk;
    ItemFacts(src, code, fn, i);
    var d := Decoded(src.fns[fn]);
    var cx, item := ContextOf(src.segs, d), d[i];
    CondAgrees(item.ins.cond, h, s, stale);
    SegsOf(src.segs, d);
    InCallContinue(d, i);
    if item.addr in cx.tables { TableAt(src.segs, d, i); }
    BxCalls(cx, item, NextAddr(src.fns[fn], d, i), h);
    CallRuns(Lifted(src), env, fuel, RegE(item.ins.op.rm, s.pc), [], h);
    RegisteredAligned(src, code, env, fuel, target, h);
    BxSteps(item.ins.op, env, h, s, stale);
    StepExecutes(code, env, s, item.ins);
    var s2 := Exec(item.ins.op, env, s).value;
    var k;
    k, s1 := SimCall(src, code, env, fuel, target, h, s2, stale);
    RunAdds(code, env, 1, k, s, s2);
    n := 1 + k;
  }

  lemma BxCalls(cx: Context, item: Item, next: Word, h: Host)
    requires item.ins.op.Bx? && item.ins.op.rm != LR && item.addr in cx.callContinue
    ensures Emit(item, next, cx).body == [SCall(RegE(item.ins.op.rm, item.addr))] + []
    ensures Eval(RegE(item.ins.op.rm, item.addr), h) == TargetOf(item.ins.op, item.addr, h.cpu.r, h.cpu.mem)
  {
    hide Eval;
    EvalReg(item.ins.op.rm, item.addr, h);
  }

  lemma BxSteps(op: Op, env: Env, h: Host, s: State, stale: bool)
    requires op.Bx? && Agree(h, s, stale) && TargetOf(op, s.pc, h.cpu.r, h.cpu.mem) % 4 == 0
    ensures Exec(op, env, s).Some? && Exec(op, env, s).value.pc == TargetOf(op, s.pc, h.cpu.r, h.cpu.mem)
    ensures Agree(h, Exec(op, env, s).value, stale)
  {
  }

  // ---- table loads ----

  /** A load lowered to a switch, whatever its shift, sign and index: the switch goes to
      the entry its index selects, or on to the next line when there is none. That is right
      exactly when it is the aligned form of the word ARM loads. */
  lemma TableLoadExact(p: Program, env: Env, fuel: nat, cx: Context, item: Item, next: Word, h: Host,
                       s: State, stale: bool)
    requires IsTableLoad(item.ins) && item.addr in cx.tables && cx.tables[item.addr].idx == item.ins.op.off.rm
    requires Predictable(item.ins.op) && AccessOk(item.ins.op, s.pc, s.cpu.r, s.cpu.mem)
    requires Agree(h, s, stale) && s.pc == item.addr
    ensures var t, op := cx.tables[item.addr], item.ins.op;
            var x := s.cpu.r[op.off.rm];
            var inside := x < |t.targets|;
            var goes := if inside then t.targets[x] else Wrap(s.pc + 4);
            var s1 := Exec(op, env, s);
            && RunBody(p, env, fuel, Emit(item, next, cx).body, h)
               == Trace(if inside then Goto(goes) else Next, h, [])
            && s1.Some? && Agree(h, s1.value, stale)
            && (s1.value.pc == goes <==> Aligned4(R32(s.cpu.mem, Moved(op.rn, op.off, s.pc, s.cpu.r))) == goes)
  {
    hide AccessOk, R32, Moved, RunBody, Wrap;
    var t := cx.tables[item.addr];
    if s.cpu.r[item.ins.op.off.rm] < |t.targets| {
      SwitchRuns(p, env, fuel, t, h);
    } else {
      SwitchPasses(p, env, fuel, t, h);
    }
  }

  lemma SwitchPasses(p: Program, env: Env, fuel: nat, t: JumpTable, h: Host)
    requires h.cpu.r[t.idx] >= |t.targets|
    ensures RunBody(p, env, fuel, [SSwitch(t.idx, t.targets)], h) == Trace(Next, h, [])
  {
    hide Do, Call;
    assert !IsStraight(SSwitch(t.idx, t.targets));
    assert [SSwitch(t.idx, t.targets)][1..] == [];
    assert RunBody(p, env, fuel, [], h) == Trace(Next, h, []);
  }

  /** In terms of the table: where the load reads entry k, unmodified, ARM goes to target k
      and the switch to target x, its index. The two agree exactly when those targets do. */
  lemma TableEntryExact(src: Source, code: Code, env: Env, fuel: nat, fn: Word, d: seq<Item>, i: nat, t: JumpTable,
                        before: Mem, h: Host, s: State, stale: bool, k: Word)
    requires SourceOk(src, code) && fn in src.fns && d == Decoded(src.fns[fn]) && i < |d| && s.pc == d[i].addr
    requires s.pc in ContextOf(src.segs, d).tables && ContextOf(src.segs, d).tables[s.pc] == t
    requires Dumped(src.segs, |before|) && Agree(h, s, stale) && h.cpu.r[t.idx] < |t.targets| && k < |t.targets|
    requires AccessOk(d[i].ins.op, s.pc, s.cpu.r, s.cpu.mem)
    requires Unmodified(s.cpu.mem, src.segs, before, TableSlot(s.pc, k), 4)
    requires IsTableLoad(d[i].ins) ==> Moved(d[i].ins.op.rn, d[i].ins.op.off, s.pc, s.cpu.r) == TableSlot(s.pc, k)
    ensures var x := h.cpu.r[t.idx];
            var s1 := Exec(d[i].ins.op, env, s);
            && RunBody(Lifted(src), env, fuel, EmitAt(src, fn, i).body, h) == Trace(Goto(t.targets[x]), h, [])
            && s1.Some? && Agree(h, s1.value, stale)
            && (s1.value.pc == t.targets[x] <==> t.targets[k] == t.targets[x])
  {
    hide Decoded, ContextOf, AccessOk, Lifted, R32, Moved, SourceOk, ItemOk, Distinct, Exec, RunBody, Dumped, Emit,
         Unmodified, TableOf, IsTableLoad, Predictable;
    ItemFacts(src, code, fn, i);
    PredictableAt(d, i);
    TableAt(src.segs, d, i);
    TargetsAligned(src, code, fn, i);
    TableWord(src.segs, HeadSet(d), d[i], k);
    assert t.targets[k] in t.targets;
    ReadAgrees(s.cpu.mem, src.segs, before, TableSlot(s.pc, k));
    TableLoadExact(Lifted(src), env, fuel, ContextOf(src.segs, d), d[i], NextAddr(src.fns[fn], d, i), h, s, stale);
  }
}
