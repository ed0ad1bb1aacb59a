/** What each kind of instruction is lifted to, told from the decoded function alone:
    the instruction, the ones around it, and the words of the image. */
module LiftLaws {
  import opened Words
  import opened Guest
  import opened Wrappers
  import opened Machine
  import opened Segments
  import opened Arm
  import opened CCode
  import opened Lift
  import opened Simulation
  import opened MemorySim
  import opened Translation
  import opened Correctness

  /** `mov lr, pc`, whatever its condition. */
  predicate MovesPcToLr(op: Op) {
    op.Dp? && op.op == MOV && !op.s && op.rd == LR && op.src == Reg(PC)
  }

  predicate IsHead(d: seq<Item>, a: Word) {
    exists j :: 0 <= j < |d| && d[j].addr == a
  }

  // ---- lines ----

  lemma LineIs(segs: seq<Segment>, fn: Fn, i: nat)
    requires i < |Decoded(fn)|
    ensures |LiftFunc(segs, fn)| == |Decoded(fn)|
    ensures var d := Decoded(fn);
            var line, bare := LiftFunc(segs, fn)[i], Emit(d[i], NextAddr(fn, d, i), ContextOf(segs, d));
            line.guard == bare.guard && line.body == bare.body
  {
    hide Emit, Decoded, ContextOf, Labels;
    assert LiftFunc(segs, fn)[i] == LineAt(segs, fn, i);
  }

  lemma ContextHolds(segs: seq<Segment>, d: seq<Item>, i: nat)
    requires i < |d|
    ensures ContextOf(segs, d).heads == HeadSet(d)
    ensures d[i].addr in ContextOf(segs, d).callContinue <==> d[i].addr in CallContinue(d)
    ensures ContextOf(segs, d).segs == segs
  {
    hide HeadSet, CallContinue, TablesFrom;
  }

  lemma InHeadSet(d: seq<Item>, a: Word)
    ensures a in HeadSet(d) <==> IsHead(d, a)
  {
  }

  /** The lines of a function in the lifted program. */
  lemma LinesOf(src: Source, fn: Word)
    requires fn in src.fns
    ensures fn in Lifted(src).fns && Lifted(src).fns[fn] == LiftFunc(src.segs, src.fns[fn])
    ensures |Lifted(src).fns[fn]| == |Decoded(src.fns[fn])|
  {
    hide LiftFunc, Decoded;
    LiftedLength(src, fn);
  }

  /** An instruction whose condition fails does nothing, if it is no stub. */
  lemma SkippedLine(p: Program, env: Env, fuel: nat, segs: seq<Segment>, fn: Fn, i: nat, h: Host)
    requires i < |LiftFunc(segs, fn)| && i < |Decoded(fn)| && !Stubbed(Decoded(fn)[i].ins.op)
    requires !CcTest(Decoded(fn)[i].ins.cond, h.cpu.cpsr)
    ensures RunLine(p, env, fuel, LiftFunc(segs, fn)[i], h) == Trace(Next, h, [])
  {
    hide Emit, Decoded, ContextOf, LiftFunc, RunBody, Body;
    LineIs(segs, fn, i);
    GuardKept(segs, fn, i);
  }

  lemma GuardKept(segs: seq<Segment>, fn: Fn, i: nat)
    requires i < |LiftFunc(segs, fn)| && i < |Decoded(fn)| && !Stubbed(Decoded(fn)[i].ins.op)
    ensures LiftFunc(segs, fn)[i].guard == GuardOf(Decoded(fn)[i].ins.cond)
  {
    hide Decoded, ContextOf, LiftFunc, Body;
    LineIs(segs, fn, i);
    var op := Decoded(fn)[i].ins.op;
    if !(op.B? || op.Bl? || op.Bx? || op.BlxReg?) { BodyRendered(op, Decoded(fn)[i].addr, segs); }
    ContextHolds(segs, Decoded(fn), i);
  }

  /** An instruction whose condition passes runs the statements of its line. */
  lemma ExecutedLine(p: Program, env: Env, fuel: nat, segs: seq<Segment>, fn: Fn, i: nat, h: Host)
    requires i < |LiftFunc(segs, fn)| && i < |Decoded(fn)| && !Stubbed(Decoded(fn)[i].ins.op)
    requires CcTest(Decoded(fn)[i].ins.cond, h.cpu.cpsr)
    ensures RunLine(p, env, fuel, LiftFunc(segs, fn)[i], h)
            == RunBody(p, env, fuel, LiftFunc(segs, fn)[i].body, h)
  {
    hide Decoded, LiftFunc, RunBody;
    GuardKept(segs, fn, i);
  }

  // ---- branches ----

  /** What a line makes of a call: it sticks with it, comes back, or returns. */
  function AfterCall(c: Trace, back: bool): Trace {
    if c.out == Return then c.(out := if back then Next else Return) else c
  }

  /** Marked as calls are exactly the `bx` and `blx` right after a `mov lr, pc`, whatever the
      conditions and the distance between the two. */
  lemma MarkedAre(d: seq<Item>, a: Word)
    ensures a in CallContinue(d) <==>
            exists i :: && 0 < i < |d| && d[i].addr == a && MovesPcToLr(d[i - 1].ins.op)
                        && (d[i].ins.op.Bx? || d[i].ins.op.BlxReg?)
  {
  }

  /** `bx rt`: right after a `mov lr, pc` it is a call that comes back, under whatever two
      conditions; anywhere else it is a tail call. */
  lemma BxLine(p: Program, env: Env, fuel: nat, segs: seq<Segment>, fn: Fn, i: nat, rt: RegNo, h: Host)
    requires Distinct(Decoded(fn)) && i < |LiftFunc(segs, fn)| && i < |Decoded(fn)|
    requires Decoded(fn)[i].ins.op == Bx(rt) && rt != LR && CcTest(Decoded(fn)[i].ins.cond, h.cpu.cpsr)
    ensures var d := Decoded(fn);
            RunLine(p, env, fuel, LiftFunc(segs, fn)[i], h)
            == AfterCall(Call(p, env, fuel, RegVal(d[i].addr, h.cpu.r, rt), h), i > 0 && MovesPcToLr(d[i - 1].ins.op))
  {
    hide Decoded, LiftFunc, RunBody, Call, ContextOf, Distinct, CallContinue;
    var d := Decoded(fn);
    LineIs(segs, fn, i);
    ContextHolds(segs, d, i);
    InCallContinue(d, i);
    ExecutedLine(p, env, fuel, segs, fn, i, h);
    EvalReg(rt, d[i].addr, h);
    var rest := if d[i].addr in CallContinue(d) then [] else [SReturn];
    CallRuns(p, env, fuel, RegE(rt, d[i].addr), rest, h);
    assert LiftFunc(segs, fn)[i].body == [SCall(RegE(rt, d[i].addr))] + rest;
  }

  lemma MovLinkBody(item: Item, next: Word, cx: Context)
    requires MovesPcToLr(item.ins.op) && item.addr !in cx.tables
    ensures Emit(item, next, cx).body == [SAssign(EReg(LR), EConst(Wrap(item.addr + 8)))]
  {
    hide Wrap;
  }

  /** `mov lr, pc` puts the address two instructions on in lr. */
  lemma MovLinkLine(p: Program, env: Env, fuel: nat, segs: seq<Segment>, fn: Fn, i: nat, h: Host)
    requires Distinct(Decoded(fn)) && i < |LiftFunc(segs, fn)| && i < |Decoded(fn)|
    requires MovesPcToLr(Decoded(fn)[i].ins.op) && CcTest(Decoded(fn)[i].ins.cond, h.cpu.cpsr)
    ensures RunLine(p, env, fuel, LiftFunc(segs, fn)[i], h)
            == Trace(Next, SetReg(h, LR, Wrap(Decoded(fn)[i].addr + 8)), [])
  {
    hide RunLine, CcTest, Decoded, LiftFunc, RunBody, ContextOf, Distinct, Eval, DoAll, AllStraight, TableOf, Wrap,
         Emit;
    var d := Decoded(fn);
    var e := EConst(Wrap(d[i].addr + 8));
    LineIs(segs, fn, i);
    TableMeans(segs, d, d[i]);
    NoMember(segs, d, i);
    MovLinkBody(d[i], NextAddr(fn, d, i), ContextOf(segs, d));
    ExecutedLine(p, env, fuel, segs, fn, i, h);
    EvalConst(Wrap(d[i].addr + 8), h);
    AssignRuns(LR, e, h);
    RunsToEnd(p, env, fuel, [SAssign(EReg(LR), e)], h);
  }

  /** `bx lr` returns. */
  lemma ReturnLine(p: Program, env: Env, fuel: nat, segs: seq<Segment>, fn: Fn, i: nat, h: Host)
    requires i < |LiftFunc(segs, fn)| && i < |Decoded(fn)|
    requires Decoded(fn)[i].ins.op == Bx(LR) && CcTest(Decoded(fn)[i].ins.cond, h.cpu.cpsr)
    ensures RunLine(p, env, fuel, LiftFunc(segs, fn)[i], h) == Trace(Return, h, [])
  {
    hide Decoded, LiftFunc, RunBody, ContextOf;
    LineIs(segs, fn, i);
    ExecutedLine(p, env, fuel, segs, fn, i, h);
    ReturnRuns(p, env, fuel, h);
  }

  /** `bl` and `blx` put the address of the next instruction in lr and come back. */
  lemma LinkLine(p: Program, env: Env, fuel: nat, segs: seq<Segment>, fn: Fn, i: nat, h: Host)
    requires i < |LiftFunc(segs, fn)| && i < |Decoded(fn)| && CcTest(Decoded(fn)[i].ins.cond, h.cpu.cpsr)
    requires var op := Decoded(fn)[i].ins.op; op.Bl? || (op.BlxReg? && op.rm != LR && op.rm != PC)
    ensures var d := Decoded(fn);
            var next := if i + 1 < |d| then d[i + 1].addr else fn.end;
            var target := if d[i].ins.op.Bl? then d[i].ins.op.target else h.cpu.r[d[i].ins.op.rm];
            RunLine(p, env, fuel, LiftFunc(segs, fn)[i], h)
            == AfterCall(Call(p, env, fuel, target, SetReg(h, LR, next)), true)
  {
    hide Decoded, LiftFunc, RunBody, Call, ContextOf, DoAll, AllStraight, Eval;
    var d := Decoded(fn);
    var next := NextAddr(fn, d, i);
    var op, linked := d[i].ins.op, SetReg(h, LR, next);
    var e := if op.Bl? then EConst(op.target) else RegE(op.rm, d[i].addr);
    LineIs(segs, fn, i);
    ExecutedLine(p, env, fuel, segs, fn, i, h);
    LinkRuns(next, h);
    if op.Bl? { EvalConst(op.target, linked); } else { EvalReg(op.rm, d[i].addr, linked); }
    CallRuns(p, env, fuel, e, [], linked);
    RunStraight(p, env, fuel, [SAssign(EReg(LR), EConst(next))], [SCall(e)] + [], h);
    assert LiftFunc(segs, fn)[i].body == [SAssign(EReg(LR), EConst(next))] + ([SCall(e)] + []);
  }

  /** `b` to a decoded instruction is a goto there; to anything else it is a tail call. */
  lemma BranchLine(p: Program, env: Env, fuel: nat, segs: seq<Segment>, fn: Fn, i: nat, target: Word, h: Host)
    requires i < |LiftFunc(segs, fn)| && i < |Decoded(fn)|
    requires Decoded(fn)[i].ins.op == B(target) && CcTest(Decoded(fn)[i].ins.cond, h.cpu.cpsr)
    ensures RunLine(p, env, fuel, LiftFunc(segs, fn)[i], h) ==
            if IsHead(Decoded(fn), target) then Trace(Goto(target), h, [])
            else AfterCall(Call(p, env, fuel, target, h), false)
  {
    hide Decoded, LiftFunc, RunBody, Call, ContextOf, IsHead, HeadSet, Eval;
    LineIs(segs, fn, i);
    ContextHolds(segs, Decoded(fn), i);
    InHeadSet(Decoded(fn), target);
    ExecutedLine(p, env, fuel, segs, fn, i, h);
    if IsHead(Decoded(fn), target) {
      GotoRuns(p, env, fuel, target, h);
    } else {
      EvalConst(target, h);
      CallRuns(p, env, fuel, EConst(target), [SReturn], h);
      assert LiftFunc(segs, fn)[i].body == [SCall(EConst(target))] + [SReturn];
    }
  }

  // ---- loads into the program counter ----

  /** The longest run of table words, at most 256, that are addresses of decoded instructions. */
  ghost predicate LongestLocal(segs: seq<Segment>, d: seq<Item>, tbl: int, t: seq<Word>) {
    && |t| <= 256
    && (forall k :: 0 <= k < |t| ==> ReadWord(segs, tbl + 4 * k) == Some(t[k]) && IsHead(d, t[k]))
    && (|t| < 256 ==> !LocalWord(segs, d, tbl + 4 * |t|))
  }

  predicate LocalWord(segs: seq<Segment>, d: seq<Item>, a: int) {
    ReadWord(segs, a).Some? && IsHead(d, ReadWord(segs, a).value)
  }

  /** A word load into pc, off pc by a register, before it is accessed: of any condition,
      shift and sign. */
  predicate LoadsPcByIndex(op: Op) {
    op.Load? && op.size == Word4 && op.rd == PC && op.rn == PC && op.off.ByReg? && op.ix != PostIndex
  }

  lemma {:induction false} TableMember(segs: seq<Segment>, heads: set<Word>, d: seq<Item>, n: nat, i: nat)
    requires i < n <= |d| && TableOf(segs, heads, d[i]) != []
    ensures d[i].addr in TablesFrom(segs, heads, d, n)
  {
    hide TableFrom, TableOf;
    if i < n - 1 {
      TableMember(segs, heads, d, n - 1, i);
    }
  }

  lemma NoMember(segs: seq<Segment>, d: seq<Item>, i: nat)
    requires i < |d| && Distinct(d) && TableOf(segs, HeadSet(d), d[i]) == []
    ensures d[i].addr !in ContextOf(segs, d).tables
  {
    hide TableFrom, TablesFrom, TableOf, HeadSet, CallContinue, ContextOf;
    if d[i].addr in ContextOf(segs, d).tables {
      TableEntryOf(segs, d, i);
    }
  }

  lemma TableEntryOf(segs: seq<Segment>, d: seq<Item>, i: nat)
    requires i < |d| && Distinct(d) && d[i].addr in ContextOf(segs, d).tables
    ensures TableOf(segs, HeadSet(d), d[i]) != []
  {
    hide TableFrom, TableOf, HeadSet, CallContinue;
    NonEmptyEntry(segs, HeadSet(d), d, |d|, d[i].addr);
  }

  lemma {:induction false} NonEmptyEntry(segs: seq<Segment>, heads: set<Word>, d: seq<Item>, n: nat, a: Word)
    requires n <= |d| && a in TablesFrom(segs, heads, d, n)
    ensures exists j :: 0 <= j < n && d[j].addr == a && TableOf(segs, heads, d[j]) != []
  {
    hide TableFrom, TableOf;
    if TableOf(segs, heads, d[n - 1]) != [] && d[n - 1].addr == a {
    } else {
      NonEmptyEntry(segs, heads, d, n - 1, a);
    }
  }

  lemma TableIs(segs: seq<Segment>, heads: set<Word>, item: Item)
    ensures TableOf(segs, heads, item) ==
            if LoadsPcByIndex(item.ins.op) then TableFrom(segs, item.addr + 8, heads, 0) else []
  {
    hide TableFrom;
  }

  lemma TableMeans(segs: seq<Segment>, d: seq<Item>, item: Item)
    ensures LoadsPcByIndex(item.ins.op) ==> LongestLocal(segs, d, item.addr + 8, TableOf(segs, HeadSet(d), item))
    ensures !LoadsPcByIndex(item.ins.op) ==> TableOf(segs, HeadSet(d), item) == []
  {
    hide ReadWord, IsHead, HeadSet, TableOf, LoadsPcByIndex, TableFrom;
    TableIs(segs, HeadSet(d), item);
    if LoadsPcByIndex(item.ins.op) {
      RunIsLongest(segs, d, item.addr + 8);
    }
  }

  lemma RunIsLongest(segs: seq<Segment>, d: seq<Item>, tbl: int)
    ensures LongestLocal(segs, d, tbl, TableFrom(segs, tbl, HeadSet(d), 0))
  {
    hide ReadWord, IsHead, HeadSet, TableFrom;
    forall a: Word | true
      ensures a in HeadSet(d) <==> IsHead(d, a)
    {
      InHeadSet(d, a);
    }
    var t := TableFrom(segs, tbl, HeadSet(d), 0);
    forall k | 0 <= k < |t|
      ensures ReadWord(segs, tbl + 4 * k) == Some(t[k]) && IsHead(d, t[k])
    {
      assert ReadWord(segs, tbl + 4 * (0 + k)) == Some(t[k]);
    }
    if |t| < 256 {
      assert match ReadWord(segs, tbl + 4 * (0 + |t|)) { case None => true case Some(w) => w !in HeadSet(d) };
    }
  }

  /** Such a load becomes a switch on its index register, over the longest run of local
      words behind it, exactly when the first word is local. */
  lemma TableLine(segs: seq<Segment>, fn: Fn, i: nat) returns (t: seq<Word>)
    requires Distinct(Decoded(fn)) && i < |LiftFunc(segs, fn)| && i < |Decoded(fn)|
    requires LoadsPcByIndex(Decoded(fn)[i].ins.op)
    ensures LongestLocal(segs, Decoded(fn), Decoded(fn)[i].addr + 8, t)
    ensures LocalWord(segs, Decoded(fn), Decoded(fn)[i].addr + 8) <==> t != []
    ensures t != [] ==> LiftFunc(segs, fn)[i].body == [SSwitch(Decoded(fn)[i].ins.op.off.rm, t)]
    ensures t == [] ==> Decoded(fn)[i].addr !in ContextOf(segs, Decoded(fn)).tables
  {
    hide Decoded, LiftFunc, TableOf, TablesFrom, TableFrom, HeadSet, CallContinue, ReadWord, IsHead, Distinct, Body;
    var d := Decoded(fn);
    t := TableOf(segs, HeadSet(d), d[i]);
    TableMeans(segs, d, d[i]);
    LineIs(segs, fn, i);
    if t == [] {
      NoMember(segs, d, i);
    } else {
      TableMember(segs, HeadSet(d), d, |d|, i);
      TableAt(segs, d, i);
      assert ReadWord(segs, d[i].addr + 8 + 4 * 0) == Some(t[0]);
    }
  }

  /** With its condition passing and the index inside, it goes to the entry selected. */
  lemma SwitchLine(p: Program, env: Env, fuel: nat, segs: seq<Segment>, fn: Fn, i: nat, n: nat, h: Host)
    requires Distinct(Decoded(fn)) && i < |LiftFunc(segs, fn)| && i < |Decoded(fn)|
    requires LoadsPcByIndex(Decoded(fn)[i].ins.op) && CcTest(Decoded(fn)[i].ins.cond, h.cpu.cpsr)
    requires n == h.cpu.r[Decoded(fn)[i].ins.op.off.rm] && n < 256
    requires forall k: nat :: k <= n ==> LocalWord(segs, Decoded(fn), Decoded(fn)[i].addr + 8 + 4 * k)
    ensures ReadWord(segs, Decoded(fn)[i].addr + 8 + 4 * n).Some?
    ensures RunLine(p, env, fuel, LiftFunc(segs, fn)[i], h)
            == Trace(Goto(ReadWord(segs, Decoded(fn)[i].addr + 8 + 4 * n).value), h, [])
  {
    hide Decoded, LiftFunc, RunBody, ReadWord, IsHead, Distinct, ContextOf;
    var d := Decoded(fn);
    var t := TableLine(segs, fn, i);
    var tbl: int := d[i].addr + 8;
    assert LocalWord(segs, d, tbl + 4 * 0);
    assert |t| <= n ==> LocalWord(segs, d, tbl + 4 * |t|);
    ExecutedLine(p, env, fuel, segs, fn, i, h);
    SwitchRuns(p, env, fuel, JumpTable(d[i].ins.op.off.rm, t), h);
  }

  /** Any other load into pc without writeback is a tail call of the word loaded. */
  lemma LoadPcLine(p: Program, env: Env, fuel: nat, segs: seq<Segment>, fn: Fn, i: nat, h: Host)
    requires Distinct(Decoded(fn)) && i < |LiftFunc(segs, fn)| && i < |Decoded(fn)|
    requires var op := Decoded(fn)[i].ins.op;
             && op.Load? && op.size == Word4 && op.rd == PC && op.ix == Plain && OffsetRendered(op.off, op.ix)
             && (LoadsPcByIndex(op) ==> !LocalWord(segs, Decoded(fn), Decoded(fn)[i].addr + 8))
    requires CcTest(Decoded(fn)[i].ins.cond, h.cpu.cpsr)
    ensures var d := Decoded(fn);
            var word := R32(h.cpu.mem, AccessAddr(d[i].ins.op.rn, d[i].ins.op.off, Plain, d[i].addr, h.cpu.r));
            RunLine(p, env, fuel, LiftFunc(segs, fn)[i], h) == AfterCall(Call(p, env, fuel, word, h), false)
  {
    hide Decoded, LiftFunc, RunBody, Call, R32, AccessAddr, AccessE, Eval, IsHead, Distinct, ReadWord, TableOf,
         ContextOf;
    var d := Decoded(fn);
    var op := d[i].ins.op;
    TableMeans(segs, d, d[i]);
    if LoadsPcByIndex(op) {
      var t := TableLine(segs, fn, i);
    } else {
      NoMember(segs, d, i);
    }
    LineIs(segs, fn, i);
    ExecutedLine(p, env, fuel, segs, fn, i, h);
    var e := ELoad(Word4, false, AccessE(op.rn, op.off, Plain, d[i].addr));
    AccessAgrees(op.rn, op.off, Plain, d[i].addr, h);
    EvalLoad(Word4, false, AccessE(op.rn, op.off, Plain, d[i].addr), h);
    CallRuns(p, env, fuel, e, [SReturn], h);
    assert LiftFunc(segs, fn)[i].body == [SCall(e)] + [SReturn];
  }

  // ---- stubs and literals ----

  /** Exactly the carry-in arithmetic and the operands rotated through carry are stubs. */
  lemma StubLine(segs: seq<Segment>, fn: Fn, i: nat)
    requires Distinct(Decoded(fn)) && i < |LiftFunc(segs, fn)| && i < |Decoded(fn)|
    ensures LiftFunc(segs, fn)[i].body == [SUnimplemented] <==>
            match Decoded(fn)[i].ins.op
            case Dp(op, _, _, _, src) => op == ADC || op == SBC || op == RSC || src.Rrx?
            case _ => false
  {
    hide Decoded, LiftFunc, Body, TableOf, ContextOf, Distinct;
    var d := Decoded(fn);
    var op := d[i].ins.op;
    LineIs(segs, fn, i);
    ContextHolds(segs, d, i);
    if !(op.B? || op.Bl? || op.Bx? || op.BlxReg?) {
      BodyRendered(op, d[i].addr, segs);
      if Body(op, d[i].addr, segs).Some? { BodyNotStub(op, d[i].addr, segs); }
      TableMeans(segs, d, d[i]);
      if op.Dp? { NoMember(segs, d, i); }
    }
  }

  predicate IsStub(line: Line) {
    line.body == [SUnimplemented]
  }

  function StubIndices(lines: seq<Line>): set<int> {
    set i | 0 <= i < |lines| && IsStub(lines[i])
  }

  /** The stubs counted are the lines that are stubs. */
  lemma {:induction false} StubsAre(lines: seq<Line>)
    ensures Stubs(lines) == |StubIndices(lines)|
  {
    hide StubIndices, IsStub;
    StubsEqual(lines);
    if lines == [] {
      StubsOfNone();
    } else {
      StubsAre(lines[..|lines| - 1]);
      OneMoreLine(lines);
    }
  }

  lemma StubsEqual(lines: seq<Line>)
    ensures Stubs(lines) ==
            if lines == [] then 0
            else Stubs(lines[..|lines| - 1]) + if IsStub(lines[|lines| - 1]) then 1 else 0
  {
  }

  lemma StubsOfNone()
    ensures StubIndices([]) == {}
  {
  }

  lemma OneMoreLine(lines: seq<Line>)
    requires lines != []
    ensures var n := |lines| - 1;
            |StubIndices(lines)| == |StubIndices(lines[..n])| + if IsStub(lines[n]) then 1 else 0
  {
    hide IsStub;
    var n := |lines| - 1;
    var before := StubIndices(lines[..n]);
    assert n !in before;
    assert StubIndices(lines) == if IsStub(lines[n]) then before + {n} else before;
  }

  /** A word load off pc into another register becomes its literal, whenever one segment holds
      that whole. */
  lemma LiteralLine(segs: seq<Segment>, fn: Fn, i: nat, rd: RegNo, disp: int, signed: bool, ix: Index)
    requires Distinct(Decoded(fn)) && i < |LiftFunc(segs, fn)| && i < |Decoded(fn)| && rd != PC
    requires Decoded(fn)[i].ins.op == Load(Word4, signed, rd, PC, ByImm(disp), ix)
    ensures var a := Decoded(fn)[i].addr + 8 + if ix == PostIndex then 0 else disp;
            ReadWord(segs, a).Some? ==>
              LiftFunc(segs, fn)[i].body == [SAssign(EReg(rd), EConst(ReadWord(segs, a).value))]
  {
    hide Decoded, LiftFunc, ReadWord, TableOf, ContextOf, Distinct, AccessE;
    var d := Decoded(fn);
    LineIs(segs, fn, i);
    ContextHolds(segs, d, i);
    TableMeans(segs, d, d[i]);
    NoMember(segs, d, i);
  }

  // ---- which instructions ----

  /** The instructions lifted are those of the decodable heads inside the function's bytes:
      the given heads, or every fourth address when there are none. */
  lemma DecodedAre(fn: Fn, a: Word)
    ensures IsHead(Decoded(fn), a) <==>
            && fn.start <= a < fn.start + fn.size && a in fn.disasm
            && if fn.heads != [] then a in fn.heads
               else exists k: nat :: k < (fn.size + 3) / 4 && a == Wrap(Fourth(fn.start, k))
    ensures forall j :: 0 <= j < |Decoded(fn)| ==>
              Decoded(fn)[j].addr in fn.disasm && Decoded(fn)[j].ins == fn.disasm[Decoded(fn)[j].addr]
  {
    hide IsItem;
    InDecoded(fn, HeadsOf(fn), |HeadsOf(fn)|, a);
    assert HeadsOf(fn)[..|HeadsOf(fn)|] == HeadsOf(fn);
    HeadsAre(fn, a);
    assert IsItem(fn, a) <==> fn.start <= a < fn.start + fn.size && a in fn.disasm by { ItemIs(fn, a); }
  }

  function Fourth(start: Word, k: nat): int {
    start + 4 * k
  }

  lemma ItemIs(fn: Fn, a: Word)
    ensures IsItem(fn, a) <==> fn.start <= a < fn.start + fn.size && a in fn.disasm
  {
  }

  lemma HeadsAre(fn: Fn, a: Word)
    ensures a in HeadsOf(fn) <==>
            if fn.heads != [] then a in fn.heads
            else exists k: nat :: k < (fn.size + 3) / 4 && a == Wrap(Fourth(fn.start, k))
  {
    var hs := HeadsOf(fn);
    if fn.heads == [] {
      if a in hs {
        var k :| 0 <= k < |hs| && hs[k] == a;
        assert a == Wrap(Fourth(fn.start, k));
      }
      if k: nat :| k < (fn.size + 3) / 4 && a == Wrap(Fourth(fn.start, k)) {
        assert hs[k] == a;
      }
    }
  }

  lemma {:induction false} InDecoded(fn: Fn, heads: seq<Word>, n: nat, a: Word)
    requires n <= |heads|
    ensures IsHead(DecodedFrom(fn, heads, n), a) <==> a in heads[..n] && IsItem(fn, a)
    ensures forall j :: 0 <= j < |DecodedFrom(fn, heads, n)| ==>
              var item := DecodedFrom(fn, heads, n)[j]; item.addr in fn.disasm && item.ins == fn.disasm[item.addr]
  {
    if n > 0 {
      InDecoded(fn, heads, n - 1, a);
      var before, d := DecodedFrom(fn, heads, n - 1), DecodedFrom(fn, heads, n);
      assert heads[..n] == heads[..n - 1] + [heads[n - 1]];
      HeadAdded(before, if IsItem(fn, heads[n - 1]) then [Item(heads[n - 1], fn.disasm[heads[n - 1]])] else [], a);
    }
  }

  lemma HeadAdded(before: seq<Item>, last: seq<Item>, a: Word)
    requires |last| <= 1
    ensures IsHead(before + last, a) <==> IsHead(before, a) || (last != [] && last[0].addr == a)
  {
    var d := before + last;
    if IsHead(before, a) {
      var j :| 0 <= j < |before| && before[j].addr == a;
      assert d[j].addr == a;
    }
    if last != [] && last[0].addr == a {
      assert d[|before|].addr == a;
    }
  }
}
