/** The translation theorem: line by line, call by call, over whole runs. */
module Correctness {
  import opened Words
  import opened Guest
  import opened Machine
  import opened Wrappers
  import opened Arm
  import opened CCode
  import opened Lift
  import opened Segments
  import opened Simulation
  import opened MemorySim
  import opened BlockSim
  import opened Translation

  // ---- single ARM steps ----

  lemma StepExecutes(code: Code, env: Env, s: State, ins: Ins)
    requires s.pc in code.text && code.text[s.pc] == ins && Passes(ins.cond, s.cpu.cpsr)
    requires Exec(ins.op, env, s).Some?
    ensures Run(code, env, 1, s) == Exec(ins.op, env, s)
  {
    hide Exec, Passes;
    var s1 := Step(code, env, s).value;
    assert Run(code, env, 0, s1) == Some(s1);
  }

  lemma StepSkips(code: Code, env: Env, s: State, ins: Ins)
    requires s.pc in code.text && code.text[s.pc] == ins && !Passes(ins.cond, s.cpu.cpsr)
    ensures Run(code, env, 1, s) == Some(s.(pc := Wrap(s.pc + 4)))
  {
    hide Exec, Passes;
    var s1 := Step(code, env, s).value;
    assert Run(code, env, 0, s1) == Some(s1);
  }

  // ---- straight-line instructions ----

  predicate IsStraightOp(op: Op) {
    match op
    case Load(_, _, rd, _, _, _) => rd != PC
    case Pop(regs) => PC !in regs
    case Block(load, _, _, _, regs) => !(load && PC in regs)
    case _ => !(op.B? || op.Bl? || op.Bx? || op.BlxReg?)
  }

  lemma PopNoReturn(regs: set<RegNo>)
    requires PC !in regs
    ensures PopBody(Ascending(regs)) == PopMoves(Ascending(regs))
  {
    hide PopMoves;
    InAscending(regs, PC);
  }

  lemma BlockNoReturn(load: bool, mode: BlockMode, rn: RegNo, wb: bool, regs: set<RegNo>, pc: Word)
    requires !(load && PC in regs)
    ensures BlockBody(load, mode, rn, wb, Ascending(regs), pc) == BlockStraight(load, mode, rn, wb, Ascending(regs), pc)
  {
    hide BlockStraight;
    InAscending(regs, PC);
  }

  lemma StraightSim(op: Op, env: Env, segs: seq<Segment>, h: Host, s: State, stale: bool)
    requires Agree(h, s, stale) && IsStraightOp(op) && Predictable(op) && Liftable(op)
    requires AccessOk(op, s.pc, s.cpu.r, s.cpu.mem) && LiteralIntact(op, s.pc, segs, s.cpu.r, s.cpu.mem)
    requires !Stubbed(op)
    ensures Body(op, s.pc, segs).Some?
    ensures var body := Body(op, s.pc, segs).value;
            && AllStraight(body) && Exec(op, env, s).Some?
            && Agree(DoAll(body, h), Exec(op, env, s).value, StaleAfter(op, stale))
            && Exec(op, env, s).value.pc == Wrap(s.pc + 4)
  {
    hide DpBody, WithNZ, LoadBody, StoreBody, PushBody, PopBody, BlockBody, DoAll, Ascending, AllStraight,
         ExecDp, ExecMul, ExecMulLong, ExecLoad, ExecStore, ExecBlock, AccessOk, LiteralIntact, Eval, MulRes;
    match op
    case Dp(o, sf, rd, rn, src) => DpSim(o, sf, rd, rn, src, h, s, stale);
    case Mul(sf, rd, rm, rs) =>
      MulExprs(rm, rs, rs, s.pc, h);
      MulSim(env, sf, rd, EBin(CMul, RegE(rm, s.pc), RegE(rs, s.pc)), MulRes(s.cpu.r[rm], s.cpu.r[rs], 0), h, s, stale);
    case Mla(sf, rd, rm, rs, rn) =>
      MulExprs(rm, rs, rn, s.pc, h);
      MulSim(env, sf, rd, EBin(CAdd, EBin(CMul, RegE(rm, s.pc), RegE(rs, s.pc)), RegE(rn, s.pc)),
             MulRes(s.cpu.r[rm], s.cpu.r[rs], s.cpu.r[rn]), h, s, stale);
    case MulLong(_, _, _, _, _, _, _) => MulLongSim(env, op, h, s, stale);
    case Load(_, _, _, _, _, _) => LoadSim(op, segs, h, s, stale);
    case Store(_, _, _, _, _) => StoreSim(op, h, s, stale);
    case Push(regs) => PushSim(regs, h, s, stale);
    case Pop(regs) =>
      PopNoReturn(regs);
      PopSim(regs, h, s, stale);
    case Block(load, mode, rn, wb, regs) =>
      BlockNoReturn(load, mode, rn, wb, regs, s.pc);
      BlockInsSim(load, mode, rn, wb, regs, h, s, stale);
  }

  // ---- returns ----

  lemma RunsToEnd(p: Program, env: Env, fuel: nat, body: seq<Stmt>, h: Host)
    requires AllStraight(body)
    ensures RunBody(p, env, fuel, body, h) == Trace(Next, DoAll(body, h), [])
    ensures RunBody(p, env, fuel, body + [SReturn], h) == Trace(Return, DoAll(body, h), [])
  {
    hide Do, IsStraight, Call;
    RunStraight(p, env, fuel, body, [], h);
    assert body + [] == body;
    RunStraight(p, env, fuel, body, [SReturn], h);
    ReturnRuns(p, env, fuel, DoAll(body, h));
  }

  lemma ReturnRuns(p: Program, env: Env, fuel: nat, h: Host)
    ensures RunBody(p, env, fuel, [SReturn], h) == Trace(Return, h, [])
  {
    hide Do, Call;
    assert !IsStraight(SReturn);
  }

  lemma PopReturnSim(regs: set<RegNo>, env: Env, h: Host, s: State, stale: bool, ret: Word)
    requires Agree(h, s, stale) && PC in regs && Predictable(Pop(regs))
    requires AccessOk(Pop(regs), s.pc, s.cpu.r, s.cpu.mem)
    requires ret % 4 == 0 && R32(s.cpu.mem, Wrap(s.cpu.r[SP] + 4 * Rank(regs, PC))) == ret
    ensures PopBody(Ascending(regs)) == PopMoves(Ascending(regs)) + [SReturn]
    ensures AllStraight(PopMoves(Ascending(regs))) && Exec(Pop(regs), env, s).Some?
    ensures Agree(DoAll(PopMoves(Ascending(regs)), h), Exec(Pop(regs), env, s).value, stale)
    ensures Exec(Pop(regs), env, s).value.pc == ret
  {
    hide PopMoves, DoAll, Ascending, AllStraight, LoadBlock, R32, AccessOk;
    InAscending(regs, PC);
    PopSim(regs, h, s, stale);
  }

  lemma BlockReturnSim(op: Op, env: Env, h: Host, s: State, stale: bool, ret: Word)
    requires Agree(h, s, stale) && op.Block? && op.load && PC in op.regs && Predictable(op) && Liftable(op)
    requires AccessOk(op, s.pc, s.cpu.r, s.cpu.mem) && ret % 4 == 0
    requires R32(s.cpu.mem, Wrap(BlockStart(op.mode, s.cpu.r[op.rn], Count(op.regs)) + 4 * Rank(op.regs, PC))) == ret
    ensures var st := BlockStraight(true, op.mode, op.rn, op.wb, Ascending(op.regs), s.pc);
            && BlockBody(true, op.mode, op.rn, op.wb, Ascending(op.regs), s.pc) == st + [SReturn]
            && AllStraight(st) && Exec(op, env, s).Some?
            && Agree(DoAll(st, h), Exec(op, env, s).value, stale)
            && Exec(op, env, s).value.pc == ret
  {
    hide BlockStraight, DoAll, Ascending, AllStraight, LoadBlock, R32, AccessOk, BlockStart, BlockBase;
    InAscending(op.regs, PC);
    BlockInsSim(op.load, op.mode, op.rn, op.wb, op.regs, h, s, stale);
  }

  // ---- local control flow ----

  lemma GotoRuns(p: Program, env: Env, fuel: nat, target: Word, h: Host)
    ensures RunBody(p, env, fuel, [SGoto(target)], h) == Trace(Goto(target), h, [])
  {
    hide Do, Call;
    assert !IsStraight(SGoto(target));
  }

  lemma SwitchRuns(p: Program, env: Env, fuel: nat, t: JumpTable, h: Host)
    requires h.cpu.r[t.idx] < |t.targets|
    ensures RunBody(p, env, fuel, [SSwitch(t.idx, t.targets)], h) == Trace(Goto(t.targets[h.cpu.r[t.idx]]), h, [])
  {
    hide Do, Call;
    assert !IsStraight(SSwitch(t.idx, t.targets));
  }

  /** The switch goes where the table load would: to the word memory holds at that index. */
  lemma TableSim(op: Op, env: Env, cx: Context, item: Item, h: Host, s: State, stale: bool)
    requires Agree(h, s, stale) && item.ins.op == op && s.pc == item.addr
    requires IsTableLoad(item.ins) && Predictable(op)
    requires AccessOk(op, s.pc, s.cpu.r, s.cpu.mem)
    requires item.addr in cx.tables && TableOk(cx, item, h.cpu)
    requires cx.tables[item.addr].idx == op.off.rm
    ensures var t := cx.tables[item.addr];
            && Exec(op, env, s) == Some(s.(pc := t.targets[h.cpu.r[t.idx]]))
  {
    hide AccessOk, R32, Moved;
    assert s.cpu.(r := s.cpu.r) == s.cpu;
  }

  // ---- calls ----

  /** The statements of a call, with or without a return after it. */
  lemma CallRuns(p: Program, env: Env, fuel: nat, e: Expr, rest: seq<Stmt>, h: Host)
    requires rest == [] || rest == [SReturn]
    ensures var t, c := RunBody(p, env, fuel, [SCall(e)] + rest, h), Call(p, env, fuel, Eval(e, h), h);
            if c.out == Return then t == c.(out := if rest == [] then Next else Return) else t == c
  {
    hide Do, Eval;
    var body := [SCall(e)] + rest;
    assert !IsStraight(body[0]) && body[1..] == rest;
    var c := Call(p, env, fuel, Eval(e, h), h);
    if rest == [SReturn] {
      ReturnRuns(p, env, fuel, c.host);
    }
  }

  /** Instructions whose line calls out of the function. */
  predicate IsCallOp(cx: Context, item: Item) {
    match item.ins.op
    case Bl(_) => true
    case BlxReg(_) => true
    case B(target) => target !in cx.heads
    case Bx(rm) => rm != LR
    case Load(_, _, rd, _, _, _) => rd == PC && item.addr !in cx.tables
    case _ => false
  }

  /** Where such an instruction goes. */
  function TargetOf(op: Op, pc: Word, r: Regs, m: Mem): Word {
    match op
    case Bl(target) => target
    case B(target) => target
    case BlxReg(rm) => RegVal(pc, r, rm)
    case Bx(rm) => RegVal(pc, r, rm)
    case Load(_, _, _, rn, off, ix) => R32(m, AccessAddr(rn, off, ix, pc, r))
    case _ => 0
  }

  predicate SetsLink(op: Op) {
    op.Bl? || op.BlxReg?
  }

  /** Does control come back to the line after the call? */
  predicate ComesBack(cx: Context, item: Item) {
    SetsLink(item.ins.op) || (item.ins.op.Bx? && item.addr in cx.callContinue)
  }

  function Linked(op: Op, next: Word, h: Host): Host {
    if SetsLink(op) then SetReg(h, LR, next) else h
  }

  /** The emitted line of a call: set lr if it links, call the target, return unless it comes back. */
  lemma CallBody(cx: Context, item: Item, next: Word, h: Host) returns (pre: seq<Stmt>, e: Expr, rest: seq<Stmt>)
    requires IsCallOp(cx, item) && Predictable(item.ins.op) && Liftable(item.ins.op)
    requires item.addr in cx.tables ==> IsTableLoad(item.ins)
    ensures Emit(item, next, cx).body == pre + ([SCall(e)] + rest)
    ensures AllStraight(pre) && DoAll(pre, h) == Linked(item.ins.op, next, h)
    ensures Eval(e, Linked(item.ins.op, next, h)) == TargetOf(item.ins.op, item.addr, h.cpu.r, h.cpu.mem)
    ensures rest == if ComesBack(cx, item) then [] else [SReturn]
  {
    hide Eval, AccessAddr, AccessE, R32, Do;
    var pc, op := item.addr, item.ins.op;
    pre, rest := [], if ComesBack(cx, item) then [] else [SReturn];
    match op
    case Bl(target) =>
      pre, e := [SAssign(EReg(LR), EConst(next))], EConst(target);
      LinkRuns(next, h);
      EvalConst(target, SetReg(h, LR, next));
    case BlxReg(rm) =>
      pre, e := [SAssign(EReg(LR), EConst(next))], RegE(rm, pc);
      LinkRuns(next, h);
      EvalReg(rm, pc, SetReg(h, LR, next));
    case B(target) =>
      e := EConst(target);
      EvalConst(target, h);
    case Bx(rm) =>
      e := RegE(rm, pc);
      EvalReg(rm, pc, h);
    case Load(size, _, _, rn, off, ix) =>
      e := ELoad(size, false, AccessE(rn, off, ix, pc));
      EvalLoad(size, false, AccessE(rn, off, ix, pc), h);
      AccessAgrees(rn, off, ix, pc, h);
    assert pre == [] ==> pre + ([SCall(e)] + rest) == [SCall(e)] + rest;
  }

  lemma LinkRuns(next: Word, h: Host)
    ensures var pre := [SAssign(EReg(LR), EConst(next))];
            AllStraight(pre) && DoAll(pre, h) == SetReg(h, LR, next)
  {
    EvalConst(next, h);
    DoOne(SAssign(EReg(LR), EConst(next)), h);
  }

  /** The ARM step of such an instruction. */
  lemma CallStep(op: Op, env: Env, h: Host, s: State, stale: bool)
    requires Agree(h, s, stale) && Predictable(op) && Liftable(op) && AccessOk(op, s.pc, s.cpu.r, s.cpu.mem)
    requires op.Bl? || op.BlxReg? || op.B? || op.Bx? || (op.Load? && op.rd == PC)
    requires TargetOf(op, s.pc, s.cpu.r, s.cpu.mem) % 4 == 0
    ensures Exec(op, env, s).Some?
    ensures Exec(op, env, s).value.pc == TargetOf(op, s.pc, s.cpu.r, s.cpu.mem)
    ensures Agree(Linked(op, Wrap(s.pc + 4), h), Exec(op, env, s).value, stale)
  {
    hide AccessAddr, R32, AccessOk, Moved;
  }

  // ---- whole lines ----

  function EmitAt(src: Source, fn: Word, i: nat): Line
    requires fn in src.fns && i < |Decoded(src.fns[fn])|
  {
    var d := Decoded(src.fns[fn]);
    Emit(d[i], NextAddr(src.fns[fn], d, i), ContextOf(src.segs, d))
  }

  /** Both machines stand at instruction i of the function at fn. */
  predicate Aligned(src: Source, code: Code, fn: Word, i: nat, ret: Word, h: Host, s: State, stale: bool) {
    && SourceOk(src, code) && fn in src.fns && i < |Decoded(src.fns[fn])|
    && s.pc == Decoded(src.fns[fn])[i].addr && ret % 4 == 0 && Agree(h, s, stale)
    && ((&& IdiomTight(src.segs, Decoded(src.fns[fn]), i)
         && CcTest(Decoded(src.fns[fn])[i].ins.cond, h.cpu.cpsr)) ==> h.cpu.r[LR] == s.pc + 4)
  }

  /** Where the ARM machine must be when the line ends with out. */
  predicate LineEnds(src: Source, fn: Word, i: nat, ret: Word, out: Out, s1: State)
    requires fn in src.fns && i < |Decoded(src.fns[fn])|
  {
    var d := Decoded(src.fns[fn]);
    match out
    case Next => s1.pc == d[i].addr + 4 && !NeverContinues(d, i)
    case Goto(target) => s1.pc == target && target in Labels(src.segs, d)
    case Return => s1.pc == ret
    case _ => false
  }

  lemma ItemFacts(src: Source, code: Code, fn: Word, i: nat)
    requires SourceOk(src, code) && fn in src.fns && i < |Decoded(src.fns[fn])|
    ensures var d := Decoded(src.fns[fn]);
            && Distinct(d) && ItemOk(d, i) && d[0].addr == fn
            && d[i].addr in code.text && code.text[d[i].addr] == d[i].ins
  {
    hide Decoded, ItemOk, Distinct;
    assert FnHeld(src, code, fn);
  }

  /** A registered function is lifted and held, or lies outside the text. */
  lemma Registered(src: Source, code: Code, addr: Word)
    requires SourceOk(src, code)
    ensures addr in src.fns ==> FnHeld(src, code, addr) && Decoded(src.fns[addr]) != []
    ensures addr in src.exts ==> ExtHeld(src, code, addr) && addr in code.exts
  {
    hide Decoded, ItemOk, Distinct;
    assert addr in src.fns ==> FnHeld(src, code, addr);
    assert addr in src.exts ==> ExtHeld(src, code, addr);
  }

  lemma InCallContinue(d: seq<Item>, i: nat)
    requires i < |d| && Distinct(d)
    ensures d[i].addr in CallContinue(d) <==> IsIdiom(d, i)
  {
  }

  lemma NotTable(src: Source, code: Code, fn: Word, i: nat)
    requires SourceOk(src, code) && fn in src.fns && i < |Decoded(src.fns[fn])|
    requires !IsTableLoad(Decoded(src.fns[fn])[i].ins)
    ensures Decoded(src.fns[fn])[i].addr !in ContextOf(src.segs, Decoded(src.fns[fn])).tables
  {
    hide Decoded, ContextOf;
    ItemFacts(src, code, fn, i);
    var d := Decoded(src.fns[fn]);
    if d[i].addr in ContextOf(src.segs, d).tables {
      TableAt(src.segs, d, i);
    }
  }

  lemma EmitStraight(cx: Context, item: Item, next: Word)
    requires !(item.ins.op.B? || item.ins.op.Bl? || item.ins.op.Bx? || item.ins.op.BlxReg?)
    requires item.addr !in cx.tables
    ensures match Body(item.ins.op, item.addr, cx.segs)
            case Some(body) => Emit(item, next, cx) == Line(None, GuardOf(item.ins.cond), body)
            case None => Emit(item, next, cx) == Line(None, None, [SUnimplemented])
  {
    hide Body;
  }

  lemma BodyRendered(op: Op, pc: Word, segs: seq<Segment>)
    requires !(op.B? || op.Bl? || op.Bx? || op.BlxReg?)
    ensures Body(op, pc, segs).Some? <==> !Stubbed(op)
  {
    hide DpBody, LoadBody, StoreBody, PushBody, PopBody, BlockBody;
    if op.Dp? { DpRendered(op.op, op.s, op.rd, op.rn, op.src, pc); }
  }

  /** An executed line that does not stick is no stub. */
  lemma NotStub(src: Source, code: Code, env: Env, fuel: nat, fn: Word, i: nat, h: Host)
    requires SourceOk(src, code) && fn in src.fns && i < |Decoded(src.fns[fn])|
    requires RunBody(Lifted(src), env, fuel, EmitAt(src, fn, i).body, h).out != Stuck
    ensures !Stubbed(Decoded(src.fns[fn])[i].ins.op)
  {
    hide Decoded, ContextOf, Lifted, RunBody, SourceOk, Body, Emit;
    var item := Decoded(src.fns[fn])[i];
    if Stubbed(item.ins.op) {
      NotTable(src, code, fn, i);
      BodyRendered(item.ins.op, item.addr, src.segs);
      EmitStraight(ContextOf(src.segs, Decoded(src.fns[fn])), item, NextAddr(src.fns[fn], Decoded(src.fns[fn]), i));
      SegsOf(src.segs, Decoded(src.fns[fn]));
      StubSticks(Lifted(src), env, fuel, h);
    }
  }

  lemma StubSticks(p: Program, env: Env, fuel: nat, h: Host)
    ensures RunBody(p, env, fuel, [SUnimplemented], h) == Trace(Stuck, h, [])
  {
    hide Do, Call;
    assert !IsStraight(SUnimplemented);
  }

  /** A straight-line instruction, or a return from a pop or ldm. */
  lemma PlainLine(src: Source, code: Code, env: Env, fuel: nat, fn: Word, i: nat, ret: Word, h: Host, s: State,
                  stale: bool)
    returns (s1: State)
    requires Aligned(src, code, fn, i, ret, h, s, stale)
    requires var d := Decoded(src.fns[fn]);
             var op := d[i].ins.op;
             && (IsStraightOp(op) || op.Pop? || op.Block?)
             && CcTest(d[i].ins.cond, h.cpu.cpsr) && StepOk(ContextOf(src.segs, d), d[i], ret, h.cpu, stale)
    requires !Stubbed(Decoded(src.fns[fn])[i].ins.op)
    ensures var op := Decoded(src.fns[fn])[i].ins.op;
            var t := RunBody(Lifted(src), env, fuel, EmitAt(src, fn, i).body, h);
            && t.visits == [] && Run(code, env, 1, s) == Some(s1)
            && Agree(t.host, s1, StaleAfter(op, stale)) && LineEnds(src, fn, i, ret, t.out, s1)
            && (IsStraightOp(op) ==>
                  Body(op, s.pc, src.segs).Some? && AllStraight(Body(op, s.pc, src.segs).value)
                  && t == Trace(Next, DoAll(Body(op, s.pc, src.segs).value, h), []))
  {
    hide Decoded, Body, Exec, ContextOf, Lifted, RunBody, AllStraight, DoAll, AccessOk, LiteralIntact,
         Ascending, R32, BlockStart, SourceOk, Predictable, Liftable, PopMoves, BlockStraight, Emit, CallContinue;
    ItemFacts(src, code, fn, i);
    NotTable(src, code, fn, i);
    var d := Decoded(src.fns[fn]);
    var op := d[i].ins.op;
    CondAgrees(d[i].ins.cond, h, s, stale);
    EmitStraight(ContextOf(src.segs, d), d[i], NextAddr(src.fns[fn], d, i));
    SegsOf(src.segs, d);
    BodyRendered(op, s.pc, src.segs);
    if IsStraightOp(op) {
      var body := Body(op, s.pc, src.segs).value;
      StraightSim(op, env, src.segs, h, s, stale);
      RunsToEnd(Lifted(src), env, fuel, body, h);
      StepExecutes(code, env, s, d[i].ins);
      s1 := Exec(op, env, s).value;
    } else if op.Pop? {
      PopReturnSim(op.regs, env, h, s, stale, ret);
      BodyOfPop(op.regs, s.pc, src.segs);
      RunsToEnd(Lifted(src), env, fuel, PopMoves(Ascending(op.regs)), h);
      StepExecutes(code, env, s, d[i].ins);
      s1 := Exec(op, env, s).value;
    } else {
      BlockBaseReg(op);
      BlockReturnSim(op, env, h, s, stale, ret);
      BodyOfBlock(op, s.pc, src.segs);
      RunsToEnd(Lifted(src), env, fuel, BlockStraight(true, op.mode, op.rn, op.wb, Ascending(op.regs), s.pc), h);
      StepExecutes(code, env, s, d[i].ins);
      s1 := Exec(op, env, s).value;
    }
  }

  lemma SegsOf(segs: seq<Segment>, d: seq<Item>)
    ensures ContextOf(segs, d).segs == segs
    ensures ContextOf(segs, d).heads == HeadSet(d) && ContextOf(segs, d).callContinue == CallContinue(d)
  {
    hide TablesFrom, CallContinue;
  }

  lemma BlockBaseReg(op: Op)
    requires op.Block? && Predictable(op)
    ensures op.rn != PC
  {
  }

  lemma BodyOfPop(regs: set<RegNo>, pc: Word, segs: seq<Segment>)
    ensures Body(Pop(regs), pc, segs) == Some(PopBody(Ascending(regs)))
  {
    hide PopBody, Ascending;
  }

  lemma BodyOfBlock(op: Op, pc: Word, segs: seq<Segment>)
    requires op.Block?
    ensures Body(op, pc, segs) == Some(BlockBody(op.load, op.mode, op.rn, op.wb, Ascending(op.regs), pc))
  {
    hide BlockBody, Ascending;
  }

  lemma TargetsAligned(src: Source, code: Code, fn: Word, i: nat)
    requires SourceOk(src, code) && fn in src.fns && i < |Decoded(src.fns[fn])|
    requires var d := Decoded(src.fns[fn]); d[i].addr in ContextOf(src.segs, d).tables
    ensures var d := Decoded(src.fns[fn]);
            var t := ContextOf(src.segs, d).tables[d[i].addr];
            && IsTableLoad(d[i].ins) && t.idx == d[i].ins.op.off.rm
            && forall a :: a in t.targets ==> a % 4 == 0 && a in Labels(src.segs, d)
  {
    hide Decoded, ContextOf, TableFrom, ItemOk;
    ItemFacts(src, code, fn, i);
    var d := Decoded(src.fns[fn]);
    TableAt(src.segs, d, i);
    var t := ContextOf(src.segs, d).tables[d[i].addr];
    forall a | a in t.targets
      ensures a % 4 == 0 && a in Labels(src.segs, d)
    {
      assert a in TableOf(src.segs, HeadSet(d), d[i]);
      HeadAligned(src, code, fn, a);
      LabelIntro(src.segs, d, |d|, i, a);
    }
  }

  lemma HeadAligned(src: Source, code: Code, fn: Word, a: Word)
    requires SourceOk(src, code) && fn in src.fns && a in HeadSet(Decoded(src.fns[fn]))
    ensures a % 4 == 0
  {
    hide Decoded;
    var d := Decoded(src.fns[fn]);
    var i :| 0 <= i < |d| && d[i].addr == a;
    ItemFacts(src, code, fn, i);
  }

  /** A local branch, a switch, or `bx lr`. */
  lemma JumpLine(src: Source, code: Code, env: Env, fuel: nat, fn: Word, i: nat, ret: Word, h: Host, s: State,
                 stale: bool)
    returns (s1: State)
    requires Aligned(src, code, fn, i, ret, h, s, stale)
    requires var d := Decoded(src.fns[fn]);
             var op := d[i].ins.op;
             && (op.B? || op.Bx? || (op.Load? && op.rd == PC)) && !IsCallOp(ContextOf(src.segs, d), d[i])
             && CcTest(d[i].ins.cond, h.cpu.cpsr) && StepOk(ContextOf(src.segs, d), d[i], ret, h.cpu, stale)
    ensures var t := RunBody(Lifted(src), env, fuel, EmitAt(src, fn, i).body, h);
            && t.visits == [] && Run(code, env, 1, s) == Some(s1)
            && Agree(t.host, s1, stale) && LineEnds(src, fn, i, ret, t.out, s1)
  {
    hide Decoded, ContextOf, Lifted, RunBody, AccessOk, LiteralIntact, R32, Moved, AccessAddr, SourceOk,
         NeverContinues, TableFrom, TableOf;
    ItemFacts(src, code, fn, i);
    var d := Decoded(src.fns[fn]);
    var op := d[i].ins.op;
    CondAgrees(d[i].ins.cond, h, s, stale);
    SegsOf(src.segs, d);
    if op.B? {
      GotoRuns(Lifted(src), env, fuel, op.target, h);
      LabelIntro(src.segs, d, |d|, i, op.target);
    } else if op.Bx? {
      ReturnRuns(Lifted(src), env, fuel, h);
    } else {
      TargetsAligned(src, code, fn, i);
      var t := ContextOf(src.segs, d).tables[d[i].addr];
      TableSim(op, env, ContextOf(src.segs, d), d[i], h, s, stale);
      SwitchRuns(Lifted(src), env, fuel, t, h);
    }
    StepExecutes(code, env, s, d[i].ins);
    s1 := Exec(op, env, s).value;
  }

  // ---- the induction over runs ----

  lemma RegisteredAligned(src: Source, code: Code, env: Env, fuel: nat, addr: Word, h: Host)
    requires SourceOk(src, code) && Call(Lifted(src), env, fuel, addr, h).out == Return
    ensures addr % 4 == 0
  {
    hide RunLines, Decoded, LiftFunc, FnHeld, SourceOk;
    Registered(src, code, addr);
    if addr in src.fns {
      ItemFacts(src, code, addr, 0);
    }
  }

  /** A line that calls: the ARM machine goes through the callee and comes back
      to the next instruction, or returns with the callee. */
  lemma CallLine(src: Source, code: Code, env: Env, fuel: nat, fn: Word, i: nat, ret: Word, h: Host, s: State,
                 stale: bool)
    returns (n: nat, s1: State)
    requires Aligned(src, code, fn, i, ret, h, s, stale)
    requires var d := Decoded(src.fns[fn]);
             && IsCallOp(ContextOf(src.segs, d), d[i])
             && CcTest(d[i].ins.cond, h.cpu.cpsr) && StepOk(ContextOf(src.segs, d), d[i], ret, h.cpu, stale)
             && LinkOk(src.segs, d, i, h.cpu)
    requires var t := RunBody(Lifted(src), env, fuel, EmitAt(src, fn, i).body, h);
             t.out != Stuck && t.out != NoFuel && Disciplined(src, stale, t.visits)
    ensures var t := RunBody(Lifted(src), env, fuel, EmitAt(src, fn, i).body, h);
            && Run(code, env, n, s) == Some(s1) && n >= 1 + |t.visits|
            && Agree(t.host, s1, StaleAtEnd(src, stale, t.visits)) && LineEnds(src, fn, i, ret, t.out, s1)
    decreases fuel, 1
  {
    hide Decoded, ContextOf, Lifted, RunBody, AccessOk, LiteralIntact, TableOk, SourceOk, Emit, DoAll, AllStraight,
         TargetOf, Exec, StaleAtEnd, Disciplined, Predictable, Liftable, Run, Call;
    ItemFacts(src, code, fn, i);
    var d := Decoded(src.fns[fn]);
    var cx, item, op := ContextOf(src.segs, d), d[i], d[i].ins.op;
    var next := NextAddr(src.fns[fn], d, i);
    var p := Lifted(src);
    CondAgrees(item.ins.cond, h, s, stale);
    SegsOf(src.segs, d);
    InCallContinue(d, i);
    if item.addr in cx.tables { TableAt(src.segs, d, i); }
    var pre, e, rest := CallBody(cx, item, next, h);
    var h1 := Linked(op, next, h);
    var target := TargetOf(op, item.addr, h.cpu.r, h.cpu.mem);
    RunStraight(p, env, fuel, pre, [SCall(e)] + rest, h);
    CallRuns(p, env, fuel, e, rest, h1);
    RegisteredAligned(src, code, env, fuel, target, h1);
    CallStep(op, env, h, s, stale);
    StepExecutes(code, env, s, item.ins);
    LinkNext(src, code, fn, i, h);
    var s2 := Exec(op, env, s).value;
    CallReturnsTo(cx, d, i, ret, h, h1, s.pc, stale);
    var k, s3 := SimCall(src, code, env, fuel, target, h1, s2, stale);
    RunAdds(code, env, 1, k, s, s2);
    n, s1 := 1 + k, s3;
  }

  /** A linking call is followed by the next instruction, whose address it puts in lr. */
  lemma LinkNext(src: Source, code: Code, fn: Word, i: nat, h: Host)
    requires SourceOk(src, code) && fn in src.fns && i < |Decoded(src.fns[fn])|
    ensures var d := Decoded(src.fns[fn]);
            && Wrap(d[i].addr + 4) == d[i].addr + 4
            && Linked(d[i].ins.op, NextAddr(src.fns[fn], d, i), h) == Linked(d[i].ins.op, d[i].addr + 4, h)
  {
    hide Decoded, SourceOk, Predictable, Liftable, CallContinue;
    ItemFacts(src, code, fn, i);
  }

  /** The value of lr at the call is where the caller goes on. */
  lemma CallReturnsTo(cx: Context, d: seq<Item>, i: nat, ret: Word, h: Host, h1: Host, pc: Word, stale: bool)
    requires i < |d| && cx.callContinue == CallContinue(d) && cx.heads == HeadSet(d) && pc == d[i].addr
    requires IsCallOp(cx, d[i]) && Distinct(d) && ItemOk(d, i) && ret % 4 == 0
    requires ReturnOk(cx, d[i], ret, h.cpu)
    requires h1 == Linked(d[i].ins.op, d[i].addr + 4, h)
    requires IsIdiom(d, i) && d[i].ins.op.Bx? && d[i].ins.op.rm != LR ==> h.cpu.r[LR] == pc + 4
    ensures h1.cpu.r[LR] % 4 == 0
    ensures ComesBack(cx, d[i]) ==> h1.cpu.r[LR] == d[i].addr + 4 && !NeverContinues(d, i)
    ensures !ComesBack(cx, d[i]) ==> h1.cpu.r[LR] == ret
  {
    hide Predictable, Liftable, R32, CallContinue, HeadSet, Rank, BlockStart, Count, Wrap, Distinct;
    InCallContinue(d, i);
    assert (d[i].addr + 4) % 4 == 0;
  }

  /** A finished call: the ARM machine runs from the callee's address to the value of lr. */
  lemma SimCall(src: Source, code: Code, env: Env, fuel: nat, addr: Word, h: Host, s: State, stale: bool)
    returns (n: nat, s1: State)
    requires SourceOk(src, code) && s.pc == addr && h.cpu.r[LR] % 4 == 0 && Agree(h, s, stale)
    requires var t := Call(Lifted(src), env, fuel, addr, h); t.out == Return && Disciplined(src, stale, t.visits)
    ensures var t := Call(Lifted(src), env, fuel, addr, h);
            && Run(code, env, n, s) == Some(s1) && s1.pc == h.cpu.r[LR] && n >= |t.visits|
            && Agree(t.host, s1, StaleAtEnd(src, stale, t.visits))
    decreases fuel, 0
  {
    hide RunLines, Decoded, FnOk, LiftFunc, Agree, StaleAtEnd, Disciplined, Run, SourceOk, Aligned;
    if addr in src.fns {
      EntryAligned(src, code, addr, h, s, stale);
      n, s1 := SimLines(src, code, env, fuel - 1, addr, 0, h.cpu.r[LR], h, s, stale);
    } else {
      n := 1;
      s1 := ExtCallSim(src, code, env, fuel, addr, h, s, stale);
      NoVisits(src, stale);
    }
  }

  /** A call to a function outside: one step of the ARM machine, and the same event. */
  lemma ExtCallSim(src: Source, code: Code, env: Env, fuel: nat, addr: Word, h: Host, s: State, stale: bool)
    returns (s1: State)
    requires SourceOk(src, code) && s.pc == addr && h.cpu.r[LR] % 4 == 0 && Agree(h, s, stale)
    requires addr !in src.fns && Call(Lifted(src), env, fuel, addr, h).out == Return
    ensures var t := Call(Lifted(src), env, fuel, addr, h);
            && Run(code, env, 1, s) == Some(s1) && s1.pc == h.cpu.r[LR]
            && t.visits == [] && Agree(t.host, s1, stale)
  {
    hide RunLines, Decoded, FnOk, LiftFunc, Exec;
    Registered(src, code, addr);
    s1 := Step(code, env, s).value;
    assert Run(code, env, 0, s1) == Some(s1);
  }

  lemma EntryAligned(src: Source, code: Code, addr: Word, h: Host, s: State, stale: bool)
    requires SourceOk(src, code) && addr in src.fns && s.pc == addr && h.cpu.r[LR] % 4 == 0 && Agree(h, s, stale)
    ensures Aligned(src, code, addr, 0, h.cpu.r[LR], h, s, stale)
  {
    hide Decoded, FnHeld;
    Registered(src, code, addr);
    ItemFacts(src, code, addr, 0);
  }

  // ---- from line to line ----

  lemma EmitGuard(cx: Context, item: Item, next: Word)
    ensures Emit(item, next, cx).guard == GuardOf(item.ins.cond)
            || (Emit(item, next, cx).guard == None && Emit(item, next, cx).body == [SUnimplemented])
  {
    hide Body;
  }

  /** A lifted line runs its statements under the condition of the instruction. */
  lemma LineRuns(src: Source, code: Code, env: Env, fuel: nat, fn: Word, i: nat, h: Host)
    requires SourceOk(src, code) && fn in src.fns && i < |Decoded(src.fns[fn])|
    requires var t := RunLine(Lifted(src), env, fuel, Lifted(src).fns[fn][i], h); t.out != Stuck || t.visits != []
    ensures var d := Decoded(src.fns[fn]);
            RunLine(Lifted(src), env, fuel, Lifted(src).fns[fn][i], h) ==
            if CcTest(d[i].ins.cond, h.cpu.cpsr) then RunBody(Lifted(src), env, fuel, EmitAt(src, fn, i).body, h)
            else Trace(Next, h, [])
  {
    hide Decoded, Emit, RunBody, SourceOk, ContextOf, Labels;
    var d := Decoded(src.fns[fn]);
    EmitGuard(ContextOf(src.segs, d), d[i], NextAddr(src.fns[fn], d, i));
    assert Lifted(src).fns[fn][i] == LineAt(src.segs, src.fns[fn], i);
    StubSticks(Lifted(src), env, fuel, h);
  }

  /** After `mov lr, pc` the carried-out or skipped `bx` finds lr right. */
  lemma IdiomReady(src: Source, code: Code, env: Env, fuel: nat, fn: Word, i: nat, ret: Word, h: Host, s: State,
                   stale: bool)
    requires Aligned(src, code, fn, i, ret, h, s, stale) && i + 1 < |Decoded(src.fns[fn])|
    requires var d := Decoded(src.fns[fn]);
             && IdiomTight(src.segs, d, i + 1) && VisitOk(src, Visit(fn, i, ret, h.cpu, h.log), stale)
    requires var t := RunLine(Lifted(src), env, fuel, Lifted(src).fns[fn][i], h);
             t.out != Stuck
    ensures var d := Decoded(src.fns[fn]);
            var t := RunLine(Lifted(src), env, fuel, Lifted(src).fns[fn][i], h);
            CcTest(d[i + 1].ins.cond, t.host.cpu.cpsr) ==> t.host.cpu.r[LR] == s.pc + 8
  {
    hide Decoded, RunBody, RunLine, ContextOf, Lifted, EmitAt, AccessOk, LiteralIntact, DoAll, Labels, StaleAfter;
    ItemFacts(src, code, fn, i);
    ItemFacts(src, code, fn, i + 1);
    LineRuns(src, code, env, fuel, fn, i, h);
    var d := Decoded(src.fns[fn]);
    if CcTest(d[i].ins.cond, h.cpu.cpsr) {
      NotStub(src, code, env, fuel, fn, i, h);
      var s1 := PlainLine(src, code, env, fuel, fn, i, ret, h, s, stale);
      MovLink(d[i].ins, s.pc, src.segs, h);
    } else {
      EntailedFails(d[i + 1].ins.cond, d[i].ins.cond, h.cpu.cpsr);
    }
  }

  lemma EntailedFails(b: Cond, a: Cond, f: Psr)
    requires Entails(b, a) && !CcTest(a, f)
    ensures !CcTest(b, f)
  {
    assert CcTest(b, f) == CcTest(b, Psr(f.n, f.z, f.c, f.v, 0));
  }

  lemma MovLink(ins: Ins, pc: Word, segs: seq<Segment>, h: Host)
    requires IsMovLrPc(ins) && pc < 0xFFFF_FFF0
    requires Body(ins.op, pc, segs).Some? && AllStraight(Body(ins.op, pc, segs).value)
    ensures var h1 := DoAll(Body(ins.op, pc, segs).value, h);
            h1.cpu.r[LR] == pc + 8 && h1.cpu.cpsr == h.cpu.cpsr
  {
    hide Bitwise, Do, LoadBody, StoreBody, Eval;
    WithNZRuns(LR, EConst(Wrap(pc + 8)), false, h);
    EvalConst(Wrap(pc + 8), h);
    assert Body(ins.op, pc, segs).value == WithNZ(EReg(LR), EConst(Wrap(pc + 8)), false);
  }

  /** One line of the lifted function is some steps of the ARM machine. */
  lemma SimLine(src: Source, code: Code, env: Env, fuel: nat, fn: Word, i: nat, ret: Word, h: Host, s: State,
                stale: bool)
    returns (n: nat, s1: State)
    requires Aligned(src, code, fn, i, ret, h, s, stale)
    requires var t := RunLine(Lifted(src), env, fuel, Lifted(src).fns[fn][i], h);
             && t.out != Stuck && t.out != NoFuel
             && Disciplined(src, stale, [Visit(fn, i, ret, h.cpu, h.log)] + t.visits)
    ensures var t := RunLine(Lifted(src), env, fuel, Lifted(src).fns[fn][i], h);
            && Run(code, env, n, s) == Some(s1) && LineEnds(src, fn, i, ret, t.out, s1) && n >= 1 + |t.visits|
            && Agree(t.host, s1, StaleAtEnd(src, stale, [Visit(fn, i, ret, h.cpu, h.log)] + t.visits))
    decreases fuel, 2
  {
    hide Decoded, RunBody, RunLine, ContextOf, Lifted, EmitAt, AccessOk, LiteralIntact, SourceOk, Labels, Run,
         TableOk, ReturnOk, StaleAtEnd, Disciplined, StaleAfter;
    var d := Decoded(src.fns[fn]);
    LiftedLength(src, fn);
    var cx, item := ContextOf(src.segs, d), d[i];
    var t := RunLine(Lifted(src), env, fuel, Lifted(src).fns[fn][i], h);
    var v := Visit(fn, i, ret, h.cpu, h.log);
    ItemFacts(src, code, fn, i);
    LineRuns(src, code, env, fuel, fn, i, h);
    VisitsConcat(src, stale, [v], t.visits);
    OneVisit(src, stale, v);
    CondAgrees(item.ins.cond, h, s, stale);
    SkipFacts(d, i, h.cpu.cpsr);
    if !CcTest(item.ins.cond, h.cpu.cpsr) {
      StepSkips(code, env, s, item.ins);
      n, s1 := 1, s.(pc := Wrap(s.pc + 4));
      NoVisits(src, stale);
    } else if IsCallOp(cx, item) {
      CallKeepsStale(item.ins.op, stale);
      n, s1 := CallLine(src, code, env, fuel, fn, i, ret, h, s, stale);
    } else if item.ins.op.B? || item.ins.op.Bx? || (item.ins.op.Load? && item.ins.op.rd == PC) {
      CallKeepsStale(item.ins.op, stale);
      n := 1;
      s1 := JumpLine(src, code, env, fuel, fn, i, ret, h, s, stale);
      NoVisits(src, stale);
    } else {
      n := 1;
      NotStub(src, code, env, fuel, fn, i, h);
      s1 := PlainLine(src, code, env, fuel, fn, i, ret, h, s, stale);
      NoVisits(src, StaleAfter(item.ins.op, stale));
    }
  }

  lemma SkipFacts(d: seq<Item>, i: nat, f: Psr)
    requires i < |d| && ItemOk(d, i)
    ensures Wrap(d[i].addr + 4) == d[i].addr + 4
    ensures !CcTest(d[i].ins.cond, f) ==> !NeverContinues(d, i)
  {
    hide Predictable, Liftable, CallContinue;
  }

  lemma CallKeepsStale(op: Op, stale: bool)
    requires !op.Dp? && !op.Mul? && !op.Mla?
    ensures StaleAfter(op, stale) == stale
  {
  }

  lemma NoVisits(src: Source, stale: bool)
    ensures StaleAtEnd(src, stale, []) == stale && Disciplined(src, stale, [])
  {
  }

  lemma OneVisit(src: Source, stale: bool, v: Visit)
    ensures Disciplined(src, stale, [v]) <==> VisitOk(src, v, stale)
    ensures StaleAtEnd(src, stale, [v]) == NextStale(src, v, stale)
  {
    hide VisitOk, NextStale;
    NoVisits(src, NextStale(src, v, stale));
  }

  /** The next position and the ARM program counter correspond again. */
  lemma NextAligned(src: Source, code: Code, env: Env, fuel: nat, fn: Word, i: nat, ret: Word, h: Host, s: State,
                    stale: bool, s1: State, stale1: bool)
    returns (j: nat)
    requires Aligned(src, code, fn, i, ret, h, s, stale) && VisitOk(src, Visit(fn, i, ret, h.cpu, h.log), stale)
    requires var t := RunLine(Lifted(src), env, fuel, Lifted(src).fns[fn][i], h);
             && (t.out.Next? || t.out.Goto?) && LineEnds(src, fn, i, ret, t.out, s1) && Agree(t.host, s1, stale1)
    ensures var t := RunLine(Lifted(src), env, fuel, Lifted(src).fns[fn][i], h);
            && Aligned(src, code, fn, j, ret, t.host, s1, stale1)
            && j == if t.out.Goto? then FindLabel(Lifted(src).fns[fn], t.out.target) else i + 1
  {
    hide Decoded, RunLine, ContextOf, LiftFunc, AccessOk, LiteralIntact, Labels, VisitOk, Predictable, Liftable,
         CallContinue;
    var d := Decoded(src.fns[fn]);
    LiftedLength(src, fn);
    var t := RunLine(Lifted(src), env, fuel, Lifted(src).fns[fn][i], h);
    ItemFacts(src, code, fn, i);
    if t.out.Goto? {
      LabelPlaced(src.segs, src.fns[fn], t.out.target);
      j := FindLabel(Lifted(src).fns[fn], t.out.target);
      ItemFacts(src, code, fn, j);
    } else {
      j := i + 1;
      if IdiomTight(src.segs, d, j) {
        IdiomReady(src, code, env, fuel, fn, i, ret, h, s, stale);
      }
    }
  }

  /** A finished run of the lifted function from line i. */
  lemma SimLines(src: Source, code: Code, env: Env, fuel: nat, fn: Word, i: nat, ret: Word, h: Host, s: State,
                 stale: bool)
    returns (n: nat, s1: State)
    requires Aligned(src, code, fn, i, ret, h, s, stale)
    requires var t := RunLines(Lifted(src), env, fuel, fn, i, ret, h);
             t.out == Return && Disciplined(src, stale, t.visits)
    ensures var t := RunLines(Lifted(src), env, fuel, fn, i, ret, h);
            && Run(code, env, n, s) == Some(s1) && s1.pc == ret && n >= |t.visits|
            && Agree(t.host, s1, StaleAtEnd(src, stale, t.visits))
    decreases fuel, 3
  {
    hide Decoded, RunLine, ContextOf, LiftFunc, SourceOk, Labels, Run, VisitOk, StaleAtEnd, Disciplined, NextStale,
         Agree;
    LiftedLength(src, fn);
    var p := Lifted(src);
    var t := RunLine(p, env, fuel, p.fns[fn][i], h);
    var v := Visit(fn, i, ret, h.cpu, h.log);
    RunLinesUnfolds(p, env, fuel, fn, i, ret, h);
    if t.out == Return {
      n, s1 := SimLine(src, code, env, fuel, fn, i, ret, h, s, stale);
    } else {
      var j := if t.out.Goto? then FindLabel(p.fns[fn], t.out.target) else i + 1;
      var rest := RunLines(p, env, fuel - 1, fn, j, ret, t.host);
      VisitsConcat(src, stale, [v] + t.visits, rest.visits);
      VisitsConcat(src, stale, [v], t.visits);
      OneVisit(src, stale, v);
      var stale1 := StaleAtEnd(src, stale, [v] + t.visits);
      var n1, s2 := SimLine(src, code, env, fuel, fn, i, ret, h, s, stale);
      var j' := NextAligned(src, code, env, fuel, fn, i, ret, h, s, stale, s2, stale1);
      var n2, s3 := SimLines(src, code, env, fuel - 1, fn, j, ret, t.host, s2, stale1);
      RunAdds(code, env, n1, n2, s, s2);
      n, s1 := n1 + n2, s3;
    }
  }

  lemma LiftedLength(src: Source, fn: Word)
    requires fn in src.fns
    ensures fn in Lifted(src).fns && |Lifted(src).fns[fn]| == |Decoded(src.fns[fn])|
  {
    hide Decoded, LineAt;
  }

  /** A finished run from line i is the line, then the return or the run from the next line. */
  lemma RunLinesUnfolds(p: Program, env: Env, fuel: nat, fn: Word, i: nat, ret: Word, h: Host)
    requires fn in p.fns && i < |p.fns[fn]| && RunLines(p, env, fuel, fn, i, ret, h).out == Return
    ensures var t := RunLine(p, env, fuel, p.fns[fn][i], h);
            var visits := [Visit(fn, i, ret, h.cpu, h.log)] + t.visits;
            var j := if t.out.Goto? then FindLabel(p.fns[fn], t.out.target) else i + 1;
            && (t.out == Return || t.out.Next? || t.out.Goto?)
            && (t.out == Return ==> RunLines(p, env, fuel, fn, i, ret, h) == t.(visits := visits))
            && (t.out != Return ==>
                  && j >= 0 && fuel > 0
                  && var rest := RunLines(p, env, fuel - 1, fn, j, ret, t.host);
                     RunLines(p, env, fuel, fn, i, ret, h) == rest.(visits := visits + rest.visits))
  {
    hide RunLine, FindLabel;
  }

  /** The translation theorem. Whenever a disciplined run of the lifted code for
      the function at addr finishes, the flat ARM machine started there in an
      agreeing state reaches the address lr held, with the same registers,
      memory, N, Z, V and external calls, and the same C unless it is stale. */
  lemma TranslationCorrect(src: Source, code: Code, env: Env, fuel: nat, addr: Word, h: Host, s: State, stale: bool)
    returns (n: nat, s1: State)
    requires SourceOk(src, code) && addr in src.fns
    requires s.pc == addr && Agree(h, s, stale) && h.cpu.r[LR] % 4 == 0
    requires var t := Call(Lifted(src), env, fuel, addr, h); t.out == Return && Disciplined(src, stale, t.visits)
    ensures var t := Call(Lifted(src), env, fuel, addr, h);
            && Run(code, env, n, s) == Some(s1)
            && s1.pc == h.cpu.r[LR] && s1.cpu.r == t.host.cpu.r && s1.cpu.mem == t.host.cpu.mem
            && s1.cpu.cpsr.n == t.host.cpu.cpsr.n && s1.cpu.cpsr.z == t.host.cpu.cpsr.z
            && s1.cpu.cpsr.v == t.host.cpu.cpsr.v && s1.log == t.host.log
            && (!StaleAtEnd(src, stale, t.visits) ==> s1.cpu.cpsr.c == t.host.cpu.cpsr.c)
  {
    hide Run, Call, SourceOk, Lifted, StaleAtEnd, Disciplined;
    n, s1 := SimCall(src, code, env, fuel, addr, h, s, stale);
  }

  // ---- unfinished runs ----

  /** The ARM machine stands at the visited instruction and agrees with the visited
      context and with the calls made outside so far, in C too unless it is stale. */
  predicate Shadows(src: Source, v: Visit, s: State, stale: bool) {
    && IsPoint(src, v) && s.pc == ItemOf(src, v).addr
    && Agree(Host(v.cpu, 0, v.log), s, stale)
    && (CcTest(ItemOf(src, v).ins.cond, v.cpu.cpsr) <==> Passes(ItemOf(src, v).ins.cond, s.cpu.cpsr))
  }

  lemma ShadowHere(src: Source, code: Code, fn: Word, i: nat, ret: Word, h: Host, s: State, stale: bool)
    requires Aligned(src, code, fn, i, ret, h, s, stale) && VisitOk(src, Visit(fn, i, ret, h.cpu, h.log), stale)
    ensures Shadows(src, Visit(fn, i, ret, h.cpu, h.log), s, stale)
  {
    hide Decoded, SourceOk, Labels, AccessOk, LiteralIntact, TableOk, ReturnOk, ContextOf;
    CondAgrees(Decoded(src.fns[fn])[i].ins.cond, h, s, stale);
  }

  /** The first visit of a disciplined run is at the line it starts from. */
  lemma FirstVisit(src: Source, fn: Word, i: nat, ret: Word, h: Host, stale: bool, rest: seq<Visit>)
    requires Disciplined(src, stale, [Visit(fn, i, ret, h.cpu, h.log)] + rest)
    ensures VisitOk(src, Visit(fn, i, ret, h.cpu, h.log), stale)
    ensures Disciplined(src, NextStale(src, Visit(fn, i, ret, h.cpu, h.log), stale), rest)
  {
    hide VisitOk, NextStale;
    assert ([Visit(fn, i, ret, h.cpu, h.log)] + rest)[1..] == rest;
  }

  /** Visits inside a line happen inside the function it calls. */
  lemma VisitsInCall(src: Source, code: Code, env: Env, fuel: nat, fn: Word, i: nat, ret: Word, h: Host, s: State,
                     stale: bool)
    returns (target: Word, h1: Host, s1: State)
    requires Aligned(src, code, fn, i, ret, h, s, stale) && VisitOk(src, Visit(fn, i, ret, h.cpu, h.log), stale)
    requires RunLine(Lifted(src), env, fuel, Lifted(src).fns[fn][i], h).visits != []
    ensures SourceOk(src, code) && target in src.fns && s1.pc == target && h1.cpu.r[LR] % 4 == 0
    ensures Agree(h1, s1, stale) && Run(code, env, 1, s) == Some(s1)
    ensures RunLine(Lifted(src), env, fuel, Lifted(src).fns[fn][i], h).visits
            == Call(Lifted(src), env, fuel, target, h1).visits
    ensures NextStale(src, Visit(fn, i, ret, h.cpu, h.log), stale) == stale
  {
    hide Decoded, ContextOf, Lifted, RunBody, AccessOk, LiteralIntact, TableOk, Emit, DoAll, AllStraight,
         TargetOf, Exec, Predictable, Liftable, Run, RunLine, SourceOk, Call;
    LiftedLength(src, fn);
    ItemFacts(src, code, fn, i);
    var d := Decoded(src.fns[fn]);
    var cx, item, op := ContextOf(src.segs, d), d[i], d[i].ins.op;
    var p := Lifted(src);
    OnlyCallsVisit(src, code, env, fuel, fn, i, h);
    CallKeepsStale(op, stale);
    CondAgrees(item.ins.cond, h, s, stale);
    SegsOf(src.segs, d);
    InCallContinue(d, i);
    if item.addr in cx.tables { TableAt(src.segs, d, i); }
    var next := NextAddr(src.fns[fn], d, i);
    var pre, e, rest := CallBody(cx, item, next, h);
    h1 := Linked(op, next, h);
    target := TargetOf(op, item.addr, h.cpu.r, h.cpu.mem);
    RunStraight(p, env, fuel, pre, [SCall(e)] + rest, h);
    CallRuns(p, env, fuel, e, rest, h1);
    VisitedIsLifted(src, code, env, fuel, target, h1);
    CallStep(op, env, h, s, stale);
    StepExecutes(code, env, s, item.ins);
    LinkNext(src, code, fn, i, h);
    CallReturnsTo(cx, d, i, ret, h, h1, s.pc, stale);
    s1 := Exec(op, env, s).value;
  }

  lemma {:induction false} NoCallNoVisits(p: Program, env: Env, fuel: nat, body: seq<Stmt>, h: Host)
    requires forall st :: st in body ==> !st.SCall?
    ensures RunBody(p, env, fuel, body, h).visits == []
    decreases |body|
  {
    hide Do, Call, IsStraight;
    if body != [] {
      assert body[0] in body;
      if IsStraight(body[0]) {
        NoCallNoVisits(p, env, fuel, body[1..], Do(body[0], h));
      } else {
        NoCallNoVisits(p, env, fuel, body[1..], h);
      }
    }
  }

  /** Only the lines of calls hold a call. */
  lemma CallFree(cx: Context, item: Item, next: Word)
    requires !IsCallOp(cx, item)
    ensures forall st :: st in Emit(item, next, cx).body ==> !st.SCall?
  {
    hide Ascending, BaseOffE, SrcE, Literal, AccessE, OffsetE, PostE, LogicalE, PushStores, PopLoads, BlockMoves, Low;
    var op := item.ins.op;
    if op.Push? || op.Pop? || op.Block? {
      var rs := Ascending(op.regs);
      OnlyMoves(rs, op.Block? && op.load, if op.Block? then Low(op.mode, |rs|) else 0, |rs|);
    }
  }

  /** A line with visits of its own is an executed call. */
  lemma OnlyCallsVisit(src: Source, code: Code, env: Env, fuel: nat, fn: Word, i: nat, h: Host)
    requires SourceOk(src, code) && fn in src.fns && i < |Decoded(src.fns[fn])|
    requires fn in Lifted(src).fns && i < |Lifted(src).fns[fn]|
    requires RunLine(Lifted(src), env, fuel, Lifted(src).fns[fn][i], h).visits != []
    ensures var d := Decoded(src.fns[fn]);
            && IsCallOp(ContextOf(src.segs, d), d[i]) && CcTest(d[i].ins.cond, h.cpu.cpsr)
            && RunLine(Lifted(src), env, fuel, Lifted(src).fns[fn][i], h)
               == RunBody(Lifted(src), env, fuel, EmitAt(src, fn, i).body, h)
  {
    hide Decoded, ContextOf, Lifted, RunBody, Emit, RunLine, SourceOk, IsCallOp;
    LineRuns(src, code, env, fuel, fn, i, h);
    var d := Decoded(src.fns[fn]);
    if !IsCallOp(ContextOf(src.segs, d), d[i]) {
      CallFree(ContextOf(src.segs, d), d[i], NextAddr(src.fns[fn], d, i));
      NoCallNoVisits(Lifted(src), env, fuel, EmitAt(src, fn, i).body, h);
    }
  }

  lemma VisitedIsLifted(src: Source, code: Code, env: Env, fuel: nat, addr: Word, h: Host)
    requires SourceOk(src, code) && Call(Lifted(src), env, fuel, addr, h).visits != []
    ensures addr in src.fns && addr % 4 == 0
  {
    hide RunLines, Decoded, LiftFunc, FnHeld, SourceOk;
    Registered(src, code, addr);
    if addr in src.fns {
      ItemFacts(src, code, addr, 0);
    }
  }

  /** Where the first k visits lie: the line's own, those inside it, those after it. */
  lemma SlicesInside<T>(v: T, inner: seq<T>, all: seq<T>, k: nat)
    requires [v] + inner <= all && k < |all|
    ensures all[0] == v && all[..k + 1] == [v] + all[1..k + 1]
    ensures 0 < k <= |inner| ==>
              all[1..k + 1] == inner[..k] && all[..k] == [v] + inner[..k - 1] && all[k] == inner[k - 1]
  {
    assert all[..1 + |inner|] == [v] + inner;
  }

  lemma SlicesAfter<T>(pre: seq<T>, rest: seq<T>, m: nat)
    requires m < |rest|
    ensures var all := pre + rest;
            && all[..|pre| + m + 1] == pre + rest[..m + 1] && all[..|pre| + m] == pre + rest[..m]
            && all[|pre| + m] == rest[m]
  {
  }

  /** Every instruction a run of a lifted function reaches, finished or not, is
      reached by the ARM machine in an agreeing state, after the same outside calls
      and with the same C unless it is stale there, and the condition passes on both
      sides or on neither. Only the visits up to that instruction need discipline. */
  lemma ShadowLines(src: Source, code: Code, env: Env, fuel: nat, fn: Word, i: nat, ret: Word, h: Host, s: State,
                    stale: bool, k: nat)
    returns (n: nat, s1: State)
    requires Aligned(src, code, fn, i, ret, h, s, stale)
    requires var visits := RunLines(Lifted(src), env, fuel, fn, i, ret, h).visits;
             k < |visits| && Disciplined(src, stale, visits[..k + 1])
    ensures var visits := RunLines(Lifted(src), env, fuel, fn, i, ret, h).visits;
            && n >= k && Run(code, env, n, s) == Some(s1)
            && Shadows(src, visits[k], s1, StaleAtEnd(src, stale, visits[..k]))
    decreases fuel, 2, k
  {
    hide Decoded, RunLine, ContextOf, LiftFunc, SourceOk, Run, VisitOk, StaleAtEnd, Disciplined, NextStale, Agree,
         Shadows, Lifted, FindLabel, RunLines, Call;
    LiftedLength(src, fn);
    var p := Lifted(src);
    var t := RunLine(p, env, fuel, p.fns[fn][i], h);
    var v := Visit(fn, i, ret, h.cpu, h.log);
    var pre := [v] + t.visits;
    var all := RunLines(p, env, fuel, fn, i, ret, h).visits;
    VisitsUnfold(p, env, fuel, fn, i, ret, h);
    SlicesInside(v, t.visits, all, k);
    FirstVisit(src, fn, i, ret, h, stale, all[1..k + 1]);
    ShadowHere(src, code, fn, i, ret, h, s, stale);
    OneVisit(src, stale, v);
    if k == 0 {
      n, s1 := 0, s;
      RunZero(code, env, s);
      NoVisits(src, stale);
      assert all[..0] == [];
    } else if k < |pre| {
      var target, h1, s2 := VisitsInCall(src, code, env, fuel, fn, i, ret, h, s, stale);
      VisitsConcat(src, stale, [v], t.visits[..k - 1]);
      var n1, s3 := ShadowCall(src, code, env, fuel, target, h1, s2, stale, k - 1);
      RunAdds(code, env, 1, n1, s, s2);
      n, s1 := 1 + n1, s3;
    } else {
      var j := if t.out.Goto? then FindLabel(p.fns[fn], t.out.target) else i + 1;
      var rest := RunLines(p, env, fuel - 1, fn, j, ret, t.host);
      var m := k - |pre|;
      SlicesAfter(pre, rest.visits, m);
      VisitsConcat(src, stale, pre, rest.visits[..m + 1]);
      VisitsConcat(src, stale, pre, rest.visits[..m]);
      var n1, s2 := SimLine(src, code, env, fuel, fn, i, ret, h, s, stale);
      var stale1 := StaleAtEnd(src, stale, pre);
      var j' := NextAligned(src, code, env, fuel, fn, i, ret, h, s, stale, s2, stale1);
      var n2, s3 := ShadowLines(src, code, env, fuel - 1, fn, j, ret, t.host, s2, stale1, m);
      RunAdds(code, env, n1, n2, s, s2);
      n, s1 := n1 + n2, s3;
    }
  }

  lemma RunZero(code: Code, env: Env, s: State)
    ensures Run(code, env, 0, s) == Some(s)
  {
  }

  /** Visits from line i: the line's own, those inside it, those from the next line. */
  lemma VisitsUnfold(p: Program, env: Env, fuel: nat, fn: Word, i: nat, ret: Word, h: Host)
    requires fn in p.fns && i < |p.fns[fn]|
    ensures var t := RunLine(p, env, fuel, p.fns[fn][i], h);
            var all := RunLines(p, env, fuel, fn, i, ret, h).visits;
            var j := if t.out.Goto? then FindLabel(p.fns[fn], t.out.target) else i + 1;
            && [Visit(fn, i, ret, h.cpu, h.log)] + t.visits <= all
            && (|all| > 1 + |t.visits| ==>
                  && fuel > 0 && j >= 0 && (t.out.Next? || t.out.Goto?)
                  && all == [Visit(fn, i, ret, h.cpu, h.log)] + t.visits
                            + RunLines(p, env, fuel - 1, fn, j, ret, t.host).visits)
  {
    hide RunLine, FindLabel;
  }

  lemma ShadowCall(src: Source, code: Code, env: Env, fuel: nat, addr: Word, h: Host, s: State, stale: bool, k: nat)
    returns (n: nat, s1: State)
    requires SourceOk(src, code) && addr in src.fns && s.pc == addr && h.cpu.r[LR] % 4 == 0 && Agree(h, s, stale)
    requires var visits := Call(Lifted(src), env, fuel, addr, h).visits;
             k < |visits| && Disciplined(src, stale, visits[..k + 1])
    ensures var visits := Call(Lifted(src), env, fuel, addr, h).visits;
            && n >= k && Run(code, env, n, s) == Some(s1)
            && Shadows(src, visits[k], s1, StaleAtEnd(src, stale, visits[..k]))
    decreases fuel, 0, 0
  {
    hide RunLines, Decoded, FnOk, LiftFunc, Agree, Disciplined, Run, SourceOk, Aligned, Shadows;
    EntryAligned(src, code, addr, h, s, stale);
    n, s1 := ShadowLines(src, code, env, fuel - 1, addr, 0, h.cpu.r[LR], h, s, stale, k);
  }

  // ---- runs that never finish ----

  lemma {:induction false} RunPrefix(code: Code, env: Env, n: nat, m: nat, s: State)
    requires n <= m && Run(code, env, m, s).Some?
    ensures Run(code, env, n, s).Some?
  {
    hide Step;
    if n > 0 {
      RunPrefix(code, env, n - 1, m - 1, Step(code, env, s).value);
    }
  }

  /** A run of the lifted program that is out of fuel has visited a line for each unit. */
  lemma {:induction false} CallVisits(p: Program, env: Env, fuel: nat, addr: Word, h: Host)
    requires Call(p, env, fuel, addr, h).out == NoFuel
    ensures |Call(p, env, fuel, addr, h).visits| >= fuel
    decreases fuel, 0, 0
  {
    hide RunLines;
    if addr in p.fns && fuel > 0 {
      LinesVisit(p, env, fuel - 1, addr, 0, h.cpu.r[LR], h);
    }
  }

  lemma {:induction false} BodyVisits(p: Program, env: Env, fuel: nat, body: seq<Stmt>, h: Host)
    requires RunBody(p, env, fuel, body, h).out == NoFuel
    ensures |RunBody(p, env, fuel, body, h).visits| >= fuel
    decreases fuel, 1, |body|
  {
    hide Call, Do, IsStraight, Eval;
    var s := body[0];
    if IsStraight(s) {
      BodyVisits(p, env, fuel, body[1..], Do(s, h));
    } else if s.SSwitch? {
      BodyVisits(p, env, fuel, body[1..], h);
    } else {
      var t := Call(p, env, fuel, Eval(s.e, h), h);
      if t.out == Return {
        BodyVisits(p, env, fuel, body[1..], t.host);
      } else {
        CallVisits(p, env, fuel, Eval(s.e, h), h);
      }
    }
  }

  lemma {:induction false} LinesVisit(p: Program, env: Env, fuel: nat, fn: Word, i: nat, ret: Word, h: Host)
    requires fn in p.fns && RunLines(p, env, fuel, fn, i, ret, h).out == NoFuel
    ensures |RunLines(p, env, fuel, fn, i, ret, h).visits| >= fuel + 1
    decreases fuel, 2, 0
  {
    hide RunBody, FindLabel;
    var t: Trace := RunLine(p, env, fuel, p.fns[fn][i], h);
    if t.out == NoFuel {
      BodyVisits(p, env, fuel, p.fns[fn][i].body, h);
    } else if fuel > 0 {
      LinesVisit(p, env, fuel - 1, fn, if t.out.Goto? then FindLabel(p.fns[fn], t.out.target) else i + 1, ret, t.host);
    }
  }

  /** If the lifted program never finishes and stays disciplined, the ARM machine never
      gets stuck: it takes any number of steps. */
  lemma NeverStuck(src: Source, code: Code, env: Env, addr: Word, h: Host, s: State, stale: bool, n: nat)
    requires SourceOk(src, code) && addr in src.fns && s.pc == addr && h.cpu.r[LR] % 4 == 0 && Agree(h, s, stale)
    requires forall fuel: nat ::
               var t := Call(Lifted(src), env, fuel, addr, h); t.out == NoFuel && Disciplined(src, stale, t.visits)
    ensures Run(code, env, n, s).Some?
  {
    hide SourceOk, Agree, Call, Run, Disciplined, Lifted, Shadows;
    var t := Call(Lifted(src), env, n + 1, addr, h);
    CallVisits(Lifted(src), env, n + 1, addr, h);
    assert t.visits == t.visits[..n + 1] + t.visits[n + 1..];
    VisitsConcat(src, stale, t.visits[..n + 1], t.visits[n + 1..]);
    var m, s1 := ShadowCall(src, code, env, n + 1, addr, h, s, stale, n);
    RunPrefix(code, env, n, m, s);
  }
}
