/** The side conditions of the translation theorem spelled out: which instructions it
    covers, which accesses it allows, and what it asks of a run. */
module SideLaws {
  import opened Words
  import opened Shifts
  import opened Guest
  import opened Machine
  import opened Wrappers
  import opened Arm
  import opened CCode
  import opened Lift
  import opened Simulation
  import opened MemorySim
  import opened Segments
  import opened Translation
  import opened LiftLaws
  import opened Correctness

  // ---- instructions ----

  predicate NoneIsPc(a: RegNo, b: RegNo, c: RegNo) {
    a != PC && b != PC && c != PC
  }

  /** Loads and stores: constant offsets always; register offsets by a register that is not
      pc, shifted by at most 31; with writeback, three different registers and no pc, and no
      shift when the offset is applied after the access. */
  predicate TransferCovered(rd: RegNo, rn: RegNo, off: Offset, ix: Index) {
    && (off.ByReg? ==> off.rm != PC && off.amount <= 31)
    && (ix != Plain ==> rn != PC && rn != rd && (off.ByReg? ==> off.rm != rn))
    && (ix == PostIndex && off.ByReg? ==> off.amount == 0)
  }

  predicate Lowest(regs: set<RegNo>, r: RegNo) {
    forall i :: i in regs ==> r <= i
  }

  lemma RankZero(regs: set<RegNo>, r: RegNo)
    requires r in regs
    ensures Rank(regs, r) == 0 <==> Lowest(regs, r)
  {
    NoneBelow(regs, r);
  }

  lemma {:induction false} NoneBelow(regs: set<RegNo>, n: nat)
    requires n <= 16
    ensures |Below(regs, n)| == 0 <==> forall i: RegNo :: i in regs ==> n <= i
  {
    if n > 0 {
      NoneBelow(regs, n - 1);
    }
  }

  /** Exactly these instructions are covered. */
  lemma CoveredAre(op: Op)
    ensures Predictable(op) && Liftable(op) <==>
            match op
            case Dp(o, _, rd, rn, src) =>
              && (rd == PC ==> o == CMP || o == CMN || o == TST || o == TEQ)
              && (src.ShiftImm? ==> src.amount <= 31)
              && (src.ShiftReg? ==> rd != PC && rn != PC && src.rm != PC && src.rs != PC)
            case Mul(_, rd, rm, rs) => NoneIsPc(rd, rm, rs) && rd != rm
            case Mla(_, rd, rm, rs, rn) => NoneIsPc(rd, rm, rs) && rn != PC && rd != rm
            case MulLong(_, _, s, lo, hi, rm, rs) =>
              !s && NoneIsPc(lo, hi, rm) && rs != PC && lo != hi && lo != rm && hi != rm
            case Load(size, _, rd, rn, off, ix) =>
              && TransferCovered(rd, rn, off, ix) && (rd == PC ==> size == Word4 && ix == Plain)
              && (ix != Plain && off.ByReg? ==> off.rm != rd)
            case Store(_, rd, rn, off, ix) => TransferCovered(rd, rn, off, ix) && rd != PC
            case Push(regs) => regs != {} && PC !in regs && SP !in regs
            case Pop(regs) => regs != {} && SP !in regs
            case Block(load, mode, rn, wb, regs) =>
              && regs != {} && rn != PC && (!load ==> PC !in regs)
              && (wb && rn in regs ==> !load && Lowest(regs, rn))
              && (wb && mode == DA ==> Count(regs) != 1)
            case B(_) => true
            case Bl(_) => true
            case Bx(_) => true
            case BlxReg(rm) => rm != PC && rm != LR
  {
    hide Below;
    match op
    case Push(regs) => if SP in regs { RankZero(regs, SP); }
    case Block(_, _, rn, _, regs) => if rn in regs { RankZero(regs, rn); }
    case _ =>
  }

  /** An access is allowed exactly when it is aligned to its size and inside the window, every
      word of a block alike. */
  lemma AccessesAre(op: Op, pc: Word, r: Regs, m: Mem)
    ensures AccessOk(op, pc, r, m) <==>
            match op
            case Load(size, _, _, rn, off, ix) => Fits(m, AccessAddr(rn, off, ix, pc, r), size)
            case Store(size, _, rn, off, ix) => Fits(m, AccessAddr(rn, off, ix, pc, r), size)
            case Push(regs) => BlockFits(m, Wrap(r[SP] - 4 * Count(regs)), Count(regs))
            case Pop(regs) => BlockFits(m, r[SP], Count(regs))
            case Block(_, mode, rn, _, regs) =>
              rn != PC && BlockFits(m, BlockStart(mode, r[rn], Count(regs)), Count(regs))
            case _ => true
  {
    hide AccessAddr, BlockAccessOk, BlockFits, Count;
    forall start: Word, n: nat | true
      ensures BlockAccessOk(m, start, n) <==> BlockFits(m, start, n)
    {
      BlockFitsIs(m, start, n);
    }
  }

  predicate Fits(m: Mem, a: Word, size: Size) {
    match size
    case Byte1 => a < |m|
    case Half2 => a % 2 == 0 && a + 2 <= |m|
    case Word4 => a % 4 == 0 && a + 4 <= |m|
  }

  predicate BlockFits(m: Mem, start: Word, n: nat) {
    start % 4 == 0 && forall k :: 0 <= k < n ==> WordFits(m, start, k)
  }

  predicate WordFits(m: Mem, start: Word, k: nat) {
    Wrap(start + 4 * k) + 4 <= |m|
  }

  lemma BlockFitsIs(m: Mem, start: Word, n: nat)
    ensures BlockAccessOk(m, start, n) <==> BlockFits(m, start, n)
  {
    if BlockAccessOk(m, start, n) {
      forall k | 0 <= k < n
        ensures WordFits(m, start, k)
      {
        assert InWindow(m, Wrap(start + 4 * k), 4);
      }
    }
    if BlockFits(m, start, n) {
      forall k | 0 <= k < n
        ensures InWindow(m, Wrap(start + 4 * k), 4)
      {
        assert WordFits(m, start, k);
      }
    }
  }

  // ---- the carry ----

  /** The conditions that read C are those that a change of C can change. */
  lemma ReadsCarryIs(cond: Cond)
    ensures ReadsCarry(cond) <==> exists f: Psr :: CcTest(cond, f) != CcTest(cond, f.(c := !f.c))
  {
    if ReadsCarry(cond) {
      var f := Psr(false, false, false, false, 0);
      assert CcTest(cond, f) != CcTest(cond, f.(c := !f.c));
    }
  }

  /** C becomes stale with a flag-setting move, logical operation or test whose operand is
      shifted or rotated, and with a flag-setting multiplication; an addition, subtraction or
      comparison that sets the flags refreshes it; nothing else changes it. */
  lemma StaleAfterIs(op: Op, stale: bool)
    ensures StaleAfter(op, stale) ==
            match op
            case Dp(o, s, _, _, src) =>
              if o == CMP || o == CMN then false
              else if s && (o == ADD || o == SUB || o == RSB || o == ADC || o == SBC || o == RSC) then false
              else if s || o == TST || o == TEQ then stale || Rotates(src)
              else stale
            case Mul(s, _, _, _) => stale || s
            case Mla(s, _, _, _, _) => stale || s
            case _ => stale
  {
  }

  predicate Rotates(o: Operand) {
    o.ShiftReg? || o.Rrx? || (o.Imm? && o.rot != 0) || (o.ShiftImm? && o.amount != 0)
  }

  // ---- runs ----

  /** A run is disciplined exactly when each of its visits is, with the staleness that the
      visits before it leave. */
  lemma {:induction false} DisciplinedIs(src: Source, stale: bool, visits: seq<Visit>)
    ensures Disciplined(src, stale, visits) <==>
            forall k :: 0 <= k < |visits| ==> VisitOk(src, visits[k], StaleAtEnd(src, stale, visits[..k]))
    decreases |visits|
  {
    hide VisitOk, NextStale;
    if visits != [] {
      var s1 := NextStale(src, visits[0], stale);
      DisciplinedIs(src, s1, visits[1..]);
      assert StaleAtEnd(src, stale, visits[..0]) == stale by { assert visits[..0] == []; }
      forall k | 0 <= k < |visits[1..]|
        ensures StaleAtEnd(src, stale, visits[..k + 1]) == StaleAtEnd(src, s1, visits[1..][..k])
      {
        assert visits[..k + 1][1..] == visits[1..][..k] && visits[..k + 1][0] == visits[0];
      }
      forall k | 0 <= k < |visits|
        ensures VisitOk(src, visits[k], StaleAtEnd(src, stale, visits[..k])) <==>
                if k == 0 then VisitOk(src, visits[0], stale)
                else VisitOk(src, visits[1..][k - 1], StaleAtEnd(src, s1, visits[1..][..k - 1]))
      {
        if k > 0 { assert visits[k] == visits[1..][k - 1]; }
      }
    }
  }

  /** One condition entails another exactly when they are equal, the other always passes, or
      they are one of eight pairs. */
  lemma EntailsIs(b: Cond, a: Cond)
    ensures Entails(b, a) <==> a == b || a == AL || Weaker(b, a)
  {
    hide Entails, Weaker;
    if Entails(b, a) {
      Refuted(b, a);
    } else if a == b || a == AL || Weaker(b, a) {
      Entailed(b, a);
    }
  }

  predicate Weaker(b: Cond, a: Cond) {
    match b
    case EQ => a == LS || a == LE
    case LO => a == LS
    case LT => a == LE
    case HI => a == HS || a == NE
    case GT => a == GE || a == NE
    case _ => false
  }

  lemma Entailed(b: Cond, a: Cond)
    requires a == b || a == AL || Weaker(b, a)
    ensures Entails(b, a)
  {
  }

  /** Seven states of the flags refute every other pair. */
  lemma Refuted(b: Cond, a: Cond)
    requires Entails(b, a)
    ensures a == b || a == AL || Weaker(b, a)
  {
    hide Entails;
    Instance(b, a, false, false, false, false);
    Instance(b, a, false, false, true, false);
    Instance(b, a, false, false, true, true);
    Instance(b, a, false, true, false, true);
    Instance(b, a, false, true, true, false);
    Instance(b, a, true, false, true, true);
    Instance(b, a, true, true, false, false);
  }

  lemma Instance(b: Cond, a: Cond, n: bool, z: bool, c: bool, v: bool)
    requires Entails(b, a)
    ensures CcTest(b, Psr(n, z, c, v, 0)) ==> CcTest(a, Psr(n, z, c, v, 0))
  {
  }

  /** At a `bx` marked as a call, lr need hold the address after it only when the `mov` before
      it is not sure to have put it there. */
  lemma LinksAre(segs: seq<Segment>, d: seq<Item>, i: nat, cpu: Cpu)
    requires i < |d|
    ensures LinkOk(segs, d, i, cpu) <==>
            (i > 0 && MovesPcToLr(d[i - 1].ins.op) && d[i].ins.op.Bx? && d[i].ins.op.rm != LR
             && CcTest(d[i].ins.cond, cpu.cpsr) && cpu.r[LR] != d[i].addr + 4 ==>
               && d[i].addr == d[i - 1].addr + 4 && Entails(d[i].ins.cond, d[i - 1].ins.cond)
               && d[i].addr !in Labels(segs, d))
  {
    hide Entails, CcTest, Labels;
  }

  /** An instruction that can fall through is followed in the text by the next one decoded;
      those that cannot are unconditional and leave or jump. */
  lemma ItemsAre(d: seq<Item>, i: nat)
    requires i < |d| && Distinct(d)
    ensures ItemOk(d, i) <==>
            && d[i].addr % 4 == 0 && d[i].addr < 0xFFFF_FFF0
            && Predictable(d[i].ins.op) && Liftable(d[i].ins.op)
            && ((i + 1 < |d| && d[i + 1].addr == d[i].addr + 4)
                || (d[i].ins.cond == AL && LeavesOrJumps(d[i].ins.op, i > 0 && MovesPcToLr(d[i - 1].ins.op))))
  {
    hide Predictable, Liftable, Distinct, CallContinue;
    InCallContinue(d, i);
  }

  predicate LeavesOrJumps(op: Op, linked: bool) {
    match op
    case B(_) => true
    case Bx(rm) => rm == LR || !linked
    case Pop(regs) => PC in regs
    case Block(load, _, _, _, regs) => load && PC in regs
    case Load(_, _, rd, _, _, _) => rd == PC
    case _ => false
  }

  /** The functions and the functions outside, as the theorem requires them. */
  lemma SourcesAre(src: Source, code: Code)
    ensures SourceOk(src, code) <==>
            && code.exts == src.exts
            && (forall a :: a in src.exts ==> a % 4 == 0 && a !in code.text && a !in src.fns)
            && (forall a :: a in src.fns ==> ExtractedAt(src, code, a))
  {
    hide Decoded, ItemOk, Distinct;
    forall a: Word | true
      ensures ExtHeld(src, code, a) <==> a % 4 == 0 && a !in code.text && a !in src.fns
    {
    }
    forall a | a in src.fns
      ensures FnHeld(src, code, a) <==> ExtractedAt(src, code, a)
    {
    }
    if SourceOk(src, code) {
      assert forall a :: a in src.exts ==> ExtHeld(src, code, a);
      assert forall a :: a in src.fns ==> FnHeld(src, code, a);
    }
  }

  predicate ExtractedAt(src: Source, code: Code, a: Word)
    requires a in src.fns
  {
    var d := Decoded(src.fns[a]);
    && d != [] && d[0].addr == a && Distinct(d)
    && forall i :: 0 <= i < |d| ==> ItemOk(d, i) && d[i].addr in code.text && code.text[d[i].addr] == d[i].ins
  }

  /** pc is the last word of a block that holds it. */
  lemma PcIsLast(regs: set<RegNo>)
    requires PC in regs
    ensures Rank(regs, PC) == Count(regs) - 1
  {
    assert Below(regs, 16) == Below(regs, 15) + [PC];
  }

  /** What is asked of a return is that the word that enters the program counter, or lr at a
      tail call, be what lr was on entry. */
  lemma ReturnsAre(cx: Context, item: Item, ret: Word, cpu: Cpu)
    ensures ReturnOk(cx, item, ret, cpu) <==>
            match item.ins.op
            case B(target) => target !in cx.heads ==> cpu.r[LR] == ret
            case Bx(rm) => rm == LR || item.addr !in cx.callContinue ==> cpu.r[LR] == ret
            case Load(_, _, rd, _, _, _) => rd == PC && item.addr !in cx.tables ==> cpu.r[LR] == ret
            case Pop(regs) => PC in regs ==> R32(cpu.mem, Wrap(cpu.r[SP] + 4 * (Count(regs) - 1))) == ret
            case Block(load, mode, rn, _, regs) =>
              load && PC in regs && rn != PC ==>
                R32(cpu.mem, Wrap(BlockStart(mode, cpu.r[rn], Count(regs)) + 4 * (Count(regs) - 1))) == ret
            case _ => true
  {
    hide R32, Wrap, Count, Rank, BlockStart;
    if (item.ins.op.Pop? || item.ins.op.Block?) && PC in item.ins.op.regs {
      PcIsLast(item.ins.op.regs);
    }
  }

  /** What is asked of a visit: the conditions above, and a condition on C only while C is
      not stale; where the condition of the instruction fails, nothing else. */
  lemma VisitsAre(src: Source, v: Visit, stale: bool)
    ensures VisitOk(src, v, stale) <==>
            && v.fn in src.fns && v.line < |Decoded(src.fns[v.fn])|
            && var d := Decoded(src.fns[v.fn]);
               var item, cx := d[v.line], ContextOf(src.segs, d);
               && (stale ==> !ReadsCarry(item.ins.cond))
               && (CcTest(item.ins.cond, v.cpu.cpsr) ==>
                     && LinkOk(src.segs, d, v.line, v.cpu) && ReturnOk(cx, item, v.ret, v.cpu)
                     && AccessOk(item.ins.op, item.addr, v.cpu.r, v.cpu.mem) && TableOk(cx, item, v.cpu)
                     && LiteralIntact(item.ins.op, item.addr, src.segs, v.cpu.r, v.cpu.mem))
  {
    hide Decoded, ReadsCarry, CcTest, AccessOk, LiteralIntact, TableOk, ReturnOk, IdiomTight, IsIdiom;
    if v.fn in src.fns { ContextIs(src.segs, Decoded(src.fns[v.fn])); }
  }

  // ---- the flat machine at its edges ----

  /** The machine stops at an address that holds neither an instruction nor a function
      outside, and at a branch that would leave ARM state. */
  lemma MachineStops(code: Code, env: Env, s: State)
    ensures s.pc !in code.text && s.pc !in code.exts ==> Step(code, env, s) == None
    ensures s.pc in code.text && Passes(code.text[s.pc].cond, s.cpu.cpsr) ==>
              var op := code.text[s.pc].op;
              && (op.Bx? && RegVal(s.pc, s.cpu.r, op.rm) % 4 != 0 ==> Step(code, env, s) == None)
              && (op.BlxReg? && op.rm != PC && s.cpu.r[op.rm] % 4 != 0 ==> Step(code, env, s) == None)
              && (!Predictable(op) || !AccessOk(op, s.pc, s.cpu.r, s.cpu.mem) ==> Step(code, env, s) == None)
    ensures s.pc in code.exts && s.pc !in code.text && s.cpu.r[LR] % 4 != 0 ==> Step(code, env, s) == None
  {
    hide Predictable, AccessOk, ExecDp, ExecMul, ExecMulLong, ExecLoad, ExecStore, ExecBlock;
  }

  /** A word popped or loaded into the program counter is a target without its two low bits. */
  lemma LoadedTargets(env: Env, s: State, regs: set<RegNo>, rn: RegNo, off: Offset)
    ensures PC in regs && Exec(Pop(regs), env, s).Some? ==>
              TargetOfWord(R32(s.cpu.mem, Wrap(s.cpu.r[SP] + 4 * Rank(regs, PC))), Exec(Pop(regs), env, s).value.pc)
    ensures var op := Load(Word4, false, PC, rn, off, Plain);
            Exec(op, env, s).Some? ==>
              TargetOfWord(R32(s.cpu.mem, Moved(rn, off, s.pc, s.cpu.r)), Exec(op, env, s).value.pc)
  {
    hide AccessOk, Predictable, R32, Moved, Rank, Count, LoadBlock, StoreBlock;
  }

  predicate TargetOfWord(w: Word, pc: Word) {
    pc % 4 == 0 && pc <= w < pc as int + 4
  }
}
