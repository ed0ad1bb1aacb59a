/** Callee-saved registers over whole call trees of lifted code: the check of
    r4-r11 and sp that dispatch makes around every call. */
module CallTree {
  import opened Words
  import opened Guest
  import opened Machine
  import opened Wrappers
  import opened Arm
  import opened CCode
  import opened Segments
  import opened Lift
  import opened Simulation
  import opened BlockSim
  import opened Correctness
  import opened Translation
  import opened Abi

  // ---- the shape of a function ----

  /** A function that saves regs on entry and pops them to return, or one that
      never writes a callee-saved register. */
  datatype Frame = Framed(regs: set<RegNo>) | Frameless

  predicate CalleeSaved(n: RegNo) {
    4 <= n <= 11
  }

  predicate Writes(s: Stmt, n: RegNo) {
    match s
    case SAssign(dst, _) => dst == EReg(n)
    case SAddFlags(dst, _, _) => dst == Some(EReg(n))
    case SSubFlags(dst, _, _) => dst == Some(EReg(n))
    case SMulLong(_, _, lo, hi, _, _) => lo == EReg(n) || hi == EReg(n)
    case _ => false
  }

  predicate BodyWrites(body: seq<Stmt>, n: RegNo) {
    exists s :: s in body && Writes(s, n)
  }

  /** Registers no line of the function writes, its epilogue apart. */
  predicate Untouched(f: Frame, n: RegNo) {
    match f
    case Frameless => CalleeSaved(n) || n == SP
    case Framed(regs) => CalleeSaved(n) && n !in regs
  }

  predicate IsEpilogue(f: Frame, line: Line) {
    f.Framed? && line.body == PopBody(Ascending(Epilogue(f.regs)))
  }

  predicate LineShape(f: Frame, line: Line) {
    IsEpilogue(f, line) ||
    ((f.Framed? ==> SReturn !in line.body) && forall n: RegNo :: Untouched(f, n) ==> !BodyWrites(line.body, n))
  }

  predicate FnShape(f: Frame, lines: seq<Line>) {
    && (forall i :: 0 <= i < |lines| ==> LineShape(f, lines[i]))
    && (f.Framed? ==>
          && Savable(f.regs) && LR in f.regs && lines != []
          && lines[0].guard == None && lines[0].body == PushBody(Ascending(f.regs)))
  }

  predicate Shaped(p: Program, frames: map<Word, Frame>) {
    forall a :: a in p.fns ==> a in frames && FnShape(frames[a], p.fns[a])
  }

  // ---- the check, and the runs it is proved for ----

  /** What dispatch compares around a call. */
  predicate AbiKept(before: Cpu, after: Cpu) {
    after.r[SP] == before.r[SP] && forall n: RegNo :: CalleeSaved(n) ==> after.r[n] == before.r[n]
  }

  /** That is r4 to r11, and sp. */
  lemma AbiKeptIs(before: Cpu, after: Cpu)
    ensures AbiKept(before, after) <==> after.r[4..12] == before.r[4..12] && after.r[13] == before.r[13]
  {
    assert forall n: RegNo :: 4 <= n <= 11 ==>
      after.r[n] == after.r[4..12][n - 4] && before.r[n] == before.r[4..12][n - 4];
  }

  ghost predicate ExtsKeep(env: Env) {
    forall log, a, r, m :: env.ext(log, a, r, m).Returned? ==>
      AbiKept(Cpu(r, Psr(false, false, false, false, 0), m),
              Cpu(env.ext(log, a, r, m).r, Psr(false, false, false, false, 0), m))
  }

  /** When an epilogue runs, sp and the saved words are as the push left them. */
  predicate FrameOk(f: Frame, line: Line, entry: Host, h: Host) {
    IsEpilogue(f, line) ==>
      && FrameFits(entry.cpu, f.regs)
      && FrameKept(DoAllStraight(PushBody(Ascending(f.regs)), entry).cpu, f.regs, h.cpu)
  }

  predicate CallIntact(p: Program, frames: map<Word, Frame>, env: Env, fuel: nat, addr: Word, h: Host)
    requires Shaped(p, frames)
    decreases fuel, 0, 0
  {
    addr in p.fns && fuel > 0 ==> LinesIntact(p, frames, env, fuel - 1, addr, 0, h, h)
  }

  /** Every call made by the statements has intact frames. */
  predicate BodyIntact(p: Program, frames: map<Word, Frame>, env: Env, fuel: nat, body: seq<Stmt>, h: Host)
    requires Shaped(p, frames)
    decreases fuel, 1, |body|
  {
    if body == [] then true
    else if IsStraight(body[0]) then BodyIntact(p, frames, env, fuel, body[1..], Do(body[0], h))
    else if body[0].SSwitch? then BodyIntact(p, frames, env, fuel, body[1..], h)
    else if body[0].SCall? then
      var t := Call(p, env, fuel, Eval(body[0].e, h), h);
      && CallIntact(p, frames, env, fuel, Eval(body[0].e, h), h)
      && (t.out == Return ==> BodyIntact(p, frames, env, fuel, body[1..], t.host))
    else true
  }

  /** From line i of the function entered at entry: epilogues find their frame, and
      a framed function does not run off its end. */
  predicate LinesIntact(p: Program, frames: map<Word, Frame>, env: Env, fuel: nat, fn: Word, i: nat, entry: Host,
                        h: Host)
    requires Shaped(p, frames) && fn in p.fns
    decreases fuel, 2, 0
  {
    if i >= |p.fns[fn]| then frames[fn].Frameless?
    else
      var line := p.fns[fn][i];
      var t: Trace := RunLine(p, env, fuel, line, h);
      var next := if t.out.Goto? then FindLabel(p.fns[fn], t.out.target) else i + 1;
      && ((line.guard.Some? && !CcTest(line.guard.value, h.cpu.cpsr)) ||
          (FrameOk(frames[fn], line, entry, h) && BodyIntact(p, frames, env, fuel, line.body, h)))
      && ((t.out.Next? || t.out.Goto?) && next >= 0 && fuel > 0 ==>
            LinesIntact(p, frames, env, fuel - 1, fn, next, entry, t.host))
  }

  // ---- one line ----

  lemma DoKeeps(s: Stmt, h: Host, n: RegNo)
    requires IsStraight(s) && !Writes(s, n)
    ensures Do(s, h).cpu.r[n] == h.cpu.r[n]
  {
    hide Eval, StoreVal, AddFlags, SubFlags, SetNZ, LongProduct;
  }

  predicate Ends(out: Out) {
    out.Next? || out.Goto? || out.Return?
  }

  /** Statements that do not write a checked register keep it, through the calls they make. */
  lemma {:induction false} BodyKeeps(p: Program, frames: map<Word, Frame>, env: Env, fuel: nat, body: seq<Stmt>,
                                     h: Host, n: RegNo)
    requires Shaped(p, frames) && ExtsKeep(env) && (CalleeSaved(n) || n == SP)
    requires !BodyWrites(body, n) && BodyIntact(p, frames, env, fuel, body, h)
    ensures var t := RunBody(p, env, fuel, body, h); Ends(t.out) ==> t.host.cpu.r[n] == h.cpu.r[n]
    decreases fuel, 1, |body|
  {
    hide Do, IsStraight, Eval, Call, Shaped, ExtsKeep, CallIntact, Writes;
    if body != [] {
      var s := body[0];
      assert s in body && forall x :: x in body[1..] ==> x in body;
      if IsStraight(s) {
        DoKeeps(s, h, n);
        BodyKeeps(p, frames, env, fuel, body[1..], Do(s, h), n);
      } else if s.SSwitch? {
        BodyKeeps(p, frames, env, fuel, body[1..], h, n);
      } else if s.SCall? {
        var t := Call(p, env, fuel, Eval(s.e, h), h);
        if t.out == Return {
          CallKeepsAbi(p, frames, env, fuel, Eval(s.e, h), h);
          BodyKeeps(p, frames, env, fuel, body[1..], t.host, n);
        }
      }
    }
  }

  /** The epilogue brings back the callee-saved registers and sp of the entry. */
  lemma EpilogueRestores(p: Program, env: Env, fuel: nat, regs: set<RegNo>, line: Line, entry: Host, h: Host)
    requires Savable(regs) && LR in regs && IsEpilogue(Framed(regs), line) && FrameOk(Framed(regs), line, entry, h)
    requires forall n: RegNo :: Untouched(Framed(regs), n) ==> h.cpu.r[n] == entry.cpu.r[n]
    ensures var t := RunBody(p, env, fuel, line.body, h);
            t.out == Return && AbiKept(entry.cpu, t.host.cpu)
  {
    hide Ascending, PopMoves, PushBody, RunBody, FrameFits, FrameKept, DoAll, AllStraight, DoAllStraight, R32, Rank;
    SaveRestore(regs, entry, h);
    PopsPc(regs);
    RunsToEnd(p, env, fuel, PopMoves(Ascending(Epilogue(regs))), h);
    var out := DoAll(PopMoves(Ascending(Epilogue(regs))), h);
    forall n: RegNo | CalleeSaved(n)
      ensures out.cpu.r[n] == entry.cpu.r[n]
    {
      assert n in regs || Untouched(Framed(regs), n);
    }
  }

  lemma PopsPc(regs: set<RegNo>)
    requires LR in regs
    ensures PopBody(Ascending(Epilogue(regs))) == PopMoves(Ascending(Epilogue(regs))) + [SReturn]
  {
    hide PopMoves, Ascending;
    InAscending(Epilogue(regs), PC);
  }

  // ---- the induction over the call tree ----

  lemma LinesKeepAbi(p: Program, frames: map<Word, Frame>, env: Env, fuel: nat, fn: Word, i: nat, ret: Word,
                     entry: Host, h: Host)
    requires Shaped(p, frames) && ExtsKeep(env) && fn in p.fns
    requires forall n: RegNo :: Untouched(frames[fn], n) ==> h.cpu.r[n] == entry.cpu.r[n]
    requires LinesIntact(p, frames, env, fuel, fn, i, entry, h)
    ensures var t := RunLines(p, env, fuel, fn, i, ret, h); t.out == Return ==> AbiKept(entry.cpu, t.host.cpu)
    decreases fuel, 2, 0
  {
    hide RunBody, BodyIntact, FrameOk, IsEpilogue, BodyWrites, ExtsKeep, PushBody, PopBody, Ascending, FindLabel;
    var lines, f := p.fns[fn], frames[fn];
    if i < |lines| {
      var line := lines[i];
      assert LineShape(f, line);
      var t: Trace := RunLine(p, env, fuel, line, h);
      var skipped := line.guard.Some? && !CcTest(line.guard.value, h.cpu.cpsr);
      if !skipped && IsEpilogue(f, line) {
        EpilogueIsFramed(f, line);
        EpilogueRestores(p, env, fuel, f.regs, line, entry, h);
      } else {
        if !skipped {
          forall n: RegNo | Untouched(f, n)
            ensures Ends(t.out) ==> t.host.cpu.r[n] == h.cpu.r[n]
          {
            BodyKeeps(p, frames, env, fuel, line.body, h, n);
          }
          BodyReturns(p, env, fuel, line.body, h);
        }
        var next := if t.out.Goto? then FindLabel(lines, t.out.target) else i + 1;
        if (t.out.Next? || t.out.Goto?) && next >= 0 && fuel > 0 {
          LinesKeepAbi(p, frames, env, fuel - 1, fn, next, ret, entry, t.host);
        }
      }
    }
  }

  lemma EpilogueIsFramed(f: Frame, line: Line)
    requires IsEpilogue(f, line)
    ensures f.Framed?
  {
  }

  lemma {:induction false} BodyReturns(p: Program, env: Env, fuel: nat, body: seq<Stmt>, h: Host)
    ensures RunBody(p, env, fuel, body, h).out.Return? ==> SReturn in body
    decreases |body|
  {
    hide Do, IsStraight, Eval, Call;
    if body != [] {
      var s := body[0];
      if IsStraight(s) {
        BodyReturns(p, env, fuel, body[1..], Do(s, h));
      } else if s.SSwitch? {
        BodyReturns(p, env, fuel, body[1..], h);
      } else if s.SCall? {
        BodyReturns(p, env, fuel, body[1..], Call(p, env, fuel, Eval(s.e, h), h).host);
      }
    }
  }

  /** By induction over the call tree, a call that returns passes dispatch's check:
      r4-r11 and sp are as before the call. */
  lemma CallKeepsAbi(p: Program, frames: map<Word, Frame>, env: Env, fuel: nat, addr: Word, h: Host)
    requires Shaped(p, frames) && ExtsKeep(env) && CallIntact(p, frames, env, fuel, addr, h)
    requires Call(p, env, fuel, addr, h).out == Return
    ensures AbiKept(h.cpu, Call(p, env, fuel, addr, h).host.cpu)
    decreases fuel, 0, 0
  {
    hide LinesIntact, RunLines, Shaped;
    if addr in p.fns {
      LinesKeepAbi(p, frames, env, fuel - 1, addr, 0, h.cpu.r[LR], h, h);
    } else {
      assert env.ext(h.log, addr, h.cpu.r, h.cpu.mem).Returned?;
    }
  }

  // ---- what the lifter emits has this shape ----

  /** Registers an instruction writes. */
  predicate OpWrites(op: Op, n: RegNo) {
    match op
    case Dp(o, _, rd, _, _) => !IsTest(o) && n == rd
    case Mul(_, rd, _, _) => n == rd
    case Mla(_, rd, _, _, _) => n == rd
    case MulLong(_, _, _, lo, hi, _, _) => n == lo || n == hi
    case Load(_, _, rd, rn, _, ix) => n == rd || (ix != Plain && n == rn)
    case Store(_, _, rn, _, ix) => ix != Plain && n == rn
    case Push(_) => n == SP
    case Pop(regs) => n in regs || n == SP
    case Block(load, _, rn, wb, regs) => (load && n in regs) || (wb && n == rn)
    case Bl(_) => n == LR
    case BlxReg(_) => n == LR
    case _ => false
  }

  /** Instructions that leave the function for good. */
  predicate OpReturns(cx: Context, item: Item) {
    match item.ins.op
    case Pop(regs) => PC in regs
    case Block(load, _, _, _, regs) => load && PC in regs
    case Load(_, _, rd, _, _, _) => rd == PC && item.addr !in cx.tables
    case B(target) => target !in cx.heads
    case Bx(rm) => rm == LR || item.addr !in cx.callContinue
    case _ => false
  }

  lemma {:induction false} MovesWrite(regs: seq<RegNo>, load: bool, low: int, i: nat, n: RegNo)
    requires i <= |regs|
    ensures !BodyWrites(PushStores(regs, i), n) && SReturn !in PushStores(regs, i)
    ensures BodyWrites(PopLoads(regs, i), n) ==> n in regs
    ensures SReturn !in PopLoads(regs, i)
    ensures BodyWrites(BlockMoves(load, regs, low, i), n) ==> load && n in regs
    ensures SReturn !in BlockMoves(load, regs, low, i)
  {
    hide BaseOffE, Wrap;
    if i > 0 {
      MovesWrite(regs, load, low, i - 1, n);
      var tail := if regs[i - 1] == PC then []
        else [SAssign(EReg(regs[i - 1]), ELoad(Word4, false, EBin(CAdd, EReg(SP), EConst(Wrap(4 * (i - 1))))))];
      assert PopLoads(regs, i) == PopLoads(regs, i - 1) + tail;
    }
  }

  lemma DpShape(op: Op, pc: Word, n: RegNo)
    requires op.Dp?
    ensures var b := DpBody(op.op, op.s, op.rd, op.rn, op.src, pc);
            b.Some? ==> (BodyWrites(b.value, n) ==> OpWrites(op, n)) && SReturn !in b.value
  {
    hide SrcE, LogicalE;
  }

  lemma TransferShape(op: Op, pc: Word, segs: seq<Segment>, n: RegNo)
    requires op.Push? || op.Pop? || op.Block?
    ensures BodyWrites(Body(op, pc, segs).value, n) ==> OpWrites(op, n)
    ensures SReturn in Body(op, pc, segs).value ==> !op.Push? && PC in op.regs && (op.Block? ==> op.load)
  {
    hide Ascending, BaseOffE, PushStores, PopLoads, BlockMoves, Low;
    var rs := Ascending(op.regs);
    InAscending(op.regs, n);
    InAscending(op.regs, PC);
    MovesWrite(rs, op.Block? && op.load, if op.Block? then Low(op.mode, |rs|) else 0, |rs|, n);
  }

  lemma AccessShape(op: Op, pc: Word, segs: seq<Segment>, n: RegNo)
    requires op.Load? || op.Store?
    ensures BodyWrites(Body(op, pc, segs).value, n) ==> OpWrites(op, n)
    ensures SReturn in Body(op, pc, segs).value ==> op.Load? && op.rd == PC
  {
    hide Literal, AccessE, OffsetE, PostE;
  }

  /** An emitted line writes only what its instruction writes, and returns only if it leaves. */
  lemma EmitShape(cx: Context, item: Item, next: Word, n: RegNo)
    ensures BodyWrites(Emit(item, next, cx).body, n) ==> OpWrites(item.ins.op, n)
    ensures SReturn in Emit(item, next, cx).body ==> OpReturns(cx, item)
  {
    hide DpBody, PushBody, PopBody, BlockBody, LoadBody, StoreBody;
    var op := item.ins.op;
    if op.Dp? {
      DpShape(op, item.addr, n);
    } else if op.Push? || op.Pop? || op.Block? {
      TransferShape(op, item.addr, cx.segs, n);
    } else if op.Load? || op.Store? {
      AccessShape(op, item.addr, cx.segs, n);
    }
  }

  // ---- and nothing less ----

  lemma Written(body: seq<Stmt>, k: nat, n: RegNo)
    requires k < |body| && Writes(body[k], n)
    ensures BodyWrites(body, n)
  {
  }

  lemma WrittenInPart(before: seq<Stmt>, part: seq<Stmt>, after: seq<Stmt>, n: RegNo)
    requires BodyWrites(part, n)
    ensures BodyWrites(before + part + after, n)
  {
    var k :| 0 <= k < |part| && Writes(part[k], n);
    Written(before + part + after, |before| + k, n);
  }

  lemma {:induction false} PopsWrite(regs: seq<RegNo>, i: nat, n: RegNo)
    requires i <= |regs| && n in regs[..i] && n != PC
    ensures BodyWrites(PopLoads(regs, i), n)
  {
    hide Wrap, BodyWrites;
    var before, all := PopLoads(regs, i - 1), PopLoads(regs, i);
    if regs[i - 1] == n {
      Written(all, |before|, n);
    } else {
      PopsWrite(regs, i - 1, n);
      WrittenInPart([], before, all[|before|..], n);
      assert [] + before + all[|before|..] == all;
    }
  }

  lemma {:induction false} LoadsWrite(regs: seq<RegNo>, low: int, i: nat, n: RegNo)
    requires i <= |regs| && n in regs[..i] && n != PC
    ensures BodyWrites(BlockMoves(true, regs, low, i), n)
  {
    hide BaseOffE, Wrap, BodyWrites;
    var before, all := BlockMoves(true, regs, low, i - 1), BlockMoves(true, regs, low, i);
    if regs[i - 1] == n {
      Written(all, |before|, n);
    } else {
      LoadsWrite(regs, low, i - 1, n);
      WrittenInPart([], before, all[|before|..], n);
      assert [] + before + all[|before|..] == all;
    }
  }

  lemma TransferWrites(op: Op, pc: Word, segs: seq<Segment>, n: RegNo)
    requires (op.Push? || op.Pop? || op.Block?) && n != PC && OpWrites(op, n)
    ensures BodyWrites(Body(op, pc, segs).value, n)
  {
    hide Ascending, BaseOffE, PushStores, PopLoads, BlockMoves, Low, BodyWrites;
    var rs, body := Ascending(op.regs), Body(op, pc, segs).value;
    InAscending(op.regs, n);
    if op.Push? {
      Written(body, 0, n);
    } else if op.Pop? {
      if n == SP {
        Written(body, |PopLoads(rs, |rs|)|, n);
      } else {
        PopsWrite(rs, |rs|, n);
        WrittenInPart([], PopLoads(rs, |rs|), body[|PopLoads(rs, |rs|)|..], n);
        assert [] + PopLoads(rs, |rs|) + body[|PopLoads(rs, |rs|)|..] == body;
      }
    } else {
      var moves := BlockMoves(op.load, rs, Low(op.mode, |rs|), |rs|);
      if op.wb && n == op.rn {
        Written(body, 1 + |moves|, n);
      } else {
        LoadsWrite(rs, Low(op.mode, |rs|), |rs|, n);
        WrittenInPart([body[0]], moves, body[1 + |moves|..], n);
        assert [body[0]] + moves + body[1 + |moves|..] == body;
      }
    }
  }

  lemma AccessWrites(op: Op, pc: Word, segs: seq<Segment>, n: RegNo)
    requires (op.Load? || op.Store?) && n != PC && OpWrites(op, n) && Predictable(op)
    ensures BodyWrites(Body(op, pc, segs).value, n)
  {
    hide AccessE, OffsetE, PostE, ReadWord, BodyWrites;
    var body := Body(op, pc, segs).value;
    if op.Store? {
      Written(body, 1, n);
    } else if n == op.rd {
      Written(body, 0, n);
    } else {
      Written(body, if op.rd == PC then 0 else 1, n);
    }
  }

  lemma DpWrites(op: Op, pc: Word, segs: seq<Segment>, n: RegNo)
    requires op.Dp? && n != PC && OpWrites(op, n) && !Stubbed(op)
    ensures Body(op, pc, segs).Some? && BodyWrites(Body(op, pc, segs).value, n)
  {
    hide SrcE, LogicalE, BodyWrites;
    DpRendered(op.op, op.s, op.rd, op.rn, op.src, pc);
    Written(Body(op, pc, segs).value, 0, n);
  }

  /** The line of an instruction writes every register the instruction writes, and returns if
      it leaves. */
  lemma EmitWrites(cx: Context, item: Item, next: Word, n: RegNo)
    requires n != PC && item.addr !in cx.tables && !Stubbed(item.ins.op) && Predictable(item.ins.op)
    ensures OpWrites(item.ins.op, n) ==> BodyWrites(Emit(item, next, cx).body, n)
    ensures OpReturns(cx, item) ==> SReturn in Emit(item, next, cx).body
  {
    hide DpBody, BodyWrites, Ascending, BlockStraight, PopMoves, PushBody;
    var op, body := item.ins.op, Emit(item, next, cx).body;
    if OpReturns(cx, item) && (op.Pop? || op.Block?) {
      InAscending(op.regs, PC);
    }
    if OpWrites(op, n) {
      if op.Dp? {
        DpWrites(op, item.addr, cx.segs, n);
      } else if op.Push? || op.Pop? || op.Block? {
        TransferWrites(op, item.addr, cx.segs, n);
      } else if op.Load? || op.Store? {
        AccessWrites(op, item.addr, cx.segs, n);
      } else {
        if op.MulLong? || op.Mul? || op.Mla? || op.Bl? || op.BlxReg? { Written(body, 0, n); }
      }
    }
  }

  /** A decoded function that pushes regs first, returns only by popping them back, and
      writes no other callee-saved register; or one that writes none and leaves sp alone. */
  predicate ArmShape(segs: seq<Segment>, f: Frame, d: seq<Item>) {
    && (forall i :: 0 <= i < |d| ==>
          || (f.Framed? && d[i].ins.op == Pop(Epilogue(f.regs)) && d[i].addr !in ContextOf(segs, d).tables)
          || ((f.Framed? ==> !OpReturns(ContextOf(segs, d), d[i]))
              && forall n: RegNo :: Untouched(f, n) ==> !OpWrites(d[i].ins.op, n)))
    && (f.Framed? ==>
          && Savable(f.regs) && LR in f.regs && d != [] && d[0].ins == Ins(AL, Push(f.regs))
          && d[0].addr !in ContextOf(segs, d).tables)
  }

  lemma LiftedShape(segs: seq<Segment>, fn: Fn, f: Frame)
    requires ArmShape(segs, f, Decoded(fn))
    ensures FnShape(f, LiftFunc(segs, fn))
  {
    hide Decoded, ContextOf, Emit, Labels, BodyWrites, OpWrites, OpReturns, PopBody, PushBody, Ascending, Epilogue,
         Untouched;
    var d, lines := Decoded(fn), LiftFunc(segs, fn);
    var cx := ContextOf(segs, d);
    forall i | 0 <= i < |lines|
      ensures LineShape(f, lines[i])
    {
      assert lines[i].body == Emit(d[i], NextAddr(fn, d, i), cx).body;
      if f.Framed? && d[i].ins.op == Pop(Epilogue(f.regs)) && d[i].addr !in cx.tables {
        EmitPushPop(cx, d[i], NextAddr(fn, d, i));
      } else {
        forall n: RegNo | Untouched(f, n)
          ensures !BodyWrites(lines[i].body, n)
        {
          EmitShape(cx, d[i], NextAddr(fn, d, i), n);
        }
        EmitShape(cx, d[i], NextAddr(fn, d, i), 0);
      }
    }
    if f.Framed? {
      EmitPushPop(cx, d[0], NextAddr(fn, d, 0));
    }
  }

  lemma EmitPushPop(cx: Context, item: Item, next: Word)
    requires item.addr !in cx.tables
    ensures item.ins.op.Pop? ==> Emit(item, next, cx).body == PopBody(Ascending(item.ins.op.regs))
    ensures item.ins.op.Push? && item.ins.cond == AL ==>
              Emit(item, next, cx) == Line(None, None, PushBody(Ascending(item.ins.op.regs)))
  {
    hide PopBody, PushBody, Ascending;
  }

  /** An intact frame also makes the epilogue return to the caller, as disciplined runs must. */
  lemma EpilogueReturnsToCaller(cx: Context, item: Item, regs: set<RegNo>, line: Line, entry: Host, h: Host)
    requires item.ins.op == Pop(Epilogue(regs)) && Savable(regs) && LR in regs
    requires IsEpilogue(Framed(regs), line) && FrameOk(Framed(regs), line, entry, h)
    ensures ReturnOk(cx, item, entry.cpu.r[LR], h.cpu)
  {
    hide PopBody, PushBody, Ascending, FrameFits, FrameKept, DoAllStraight, R32, Rank, DoAll, AllStraight, PopMoves;
    SaveRestore(regs, entry, h);
  }
}
