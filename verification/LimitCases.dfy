/** One machine state for each form that module Limits characterises, in which the
    architecture defines the instruction and the emitted C gets it wrong. */
module LimitCases {
  import opened Words
  import opened Shifts
  import opened Guest
  import opened Machine
  import opened Wrappers
  import opened Segments
  import opened Arm
  import opened CCode
  import opened Lift
  import opened Simulation
  import opened BlockSim
  import opened Limits
  import opened Translation
  import opened Correctness

  /** r1, r2 and sp as given, every other register and all memory zero, flags clear. */
  function Begin(r1: Word, r2: Word, sp: Word): State {
    State(Cpu([0, r1, r2, 0, 0, 0, 0, 0, 0, 0, 0, 0, 0, sp, 0, 0], Psr(false, false, false, false, 0),
              seq(0x1000, i => 0)), 0x100, [])
  }

  function HostOf(s: State): Host {
    Host(s.cpu, 0, s.log)
  }

  /** What architecture and window require, and both sides start out the same. */
  predicate Fair(op: Op, s: State) {
    Predictable(op) && AccessOk(op, s.pc, s.cpu.r, s.cpu.mem) && Agree(HostOf(s), s, false)
  }

  /** The statements leave a context that the ARM step does not. */
  predicate Parts(body: seq<Stmt>, s: State, s1: Option<State>) {
    AllStraight(body) && s1.Some? && !Agree(DoAll(body, HostOf(s)), s1.value, false)
  }

  lemma OneAccess(m: Mem, a: Word)
    requires a % 4 == 0 && a + 4 <= |m|
    ensures BlockAccessOk(m, a, 1)
  {
  }

  lemma ZeroWord(m: Mem, a: Word)
    requires forall x :: a <= x < a + 4 && x < |m| ==> m[x] == 0
    ensures R32(m, a) == 0
  {
  }

  /** `ldmda r1!, {r2}`. */
  lemma DecrementAfterFails()
    ensures var s, op := Begin(0x800, 0, 0), Block(true, DA, 1, true, {2});
            && Fair(op, s)
            && Parts(BlockStraight(true, DA, 1, true, Ascending({2}), s.pc), s, ExecBlock(s, true, DA, 1, true, {2}))
  {
    hide Ascending, BlockStraight, ExecBlock, DoAll, AllStraight, BlockAccessOk;
    var s := Begin(0x800, 0, 0);
    OneListed(2);
    OneAccess(s.cpu.mem, 0x800);
    WritebackExact(true, DA, 1, {2}, HostOf(s), s, false);
  }

  /** `push {sp}`. */
  lemma PushSpFails()
    ensures var s, op := Begin(0, 0, 0x800), Push({SP});
            Fair(op, s) && Parts(PushBody(Ascending({SP})), s, ExecBlock(s, false, DB, SP, true, {SP}))
  {
    hide Ascending, PushBody, ExecBlock, DoAll, AllStraight, BlockAccessOk, Rank;
    var s := Begin(0, 0, 0x800);
    OneListed(SP);
    OneAccess(s.cpu.mem, 0x7FC);
    PushSpExact({SP}, HostOf(s), s, false);
  }

  lemma ShiftOne(kind: ShiftKind, x: Word)
    ensures Shifted(kind, x, 1) == OneBit(kind, x)
  {
    assert Shifted(kind, x, 0) == x;
  }

  /** `str r3, [r1], r2, lsl #1`. */
  lemma PostShiftStoreFails()
    ensures var s, op := Begin(0x800, 4, 0), Store(Word4, 3, 1, ByReg(false, 2, Lsl, 1), PostIndex);
            Fair(op, s) && Parts(StoreBody(op, s.pc), s, ExecStore(s, op))
  {
    hide StoreBody, ExecStore, DoAll, AllStraight, Shifted;
    var s, op := Begin(0x800, 4, 0), Store(Word4, 3, 1, ByReg(false, 2, Lsl, 1), PostIndex);
    ShiftOne(Lsl, 4);
    PostShiftStoreExact(op, HostOf(s), s, false);
  }

  /** `ldr r3, [r1], r2, lsl #1`. */
  lemma PostShiftLoadFails()
    ensures var s, op := Begin(0x800, 4, 0), Load(Word4, false, 3, 1, ByReg(false, 2, Lsl, 1), PostIndex);
            Fair(op, s) && Parts(LoadBody(op, s.pc, []), s, ExecLoad(s, op))
  {
    hide LoadBody, ExecLoad, DoAll, AllStraight, Shifted;
    var s, op := Begin(0x800, 4, 0), Load(Word4, false, 3, 1, ByReg(false, 2, Lsl, 1), PostIndex);
    ShiftOne(Lsl, 4);
    PostShiftLoadExact(op, [], HostOf(s), s, false);
  }

  /** `ldr r2, [r1, r2]!`. */
  lemma LoadIntoOffsetFails()
    ensures var s, op := Begin(0x800, 4, 0), Load(Word4, false, 2, 1, ByReg(false, 2, Lsl, 0), PreIndex);
            Fair(op, s) && Parts(LoadBody(op, s.pc, []), s, ExecLoad(s, op))
  {
    hide LoadBody, ExecLoad, DoAll, AllStraight, R32;
    var s, op := Begin(0x800, 4, 0), Load(Word4, false, 2, 1, ByReg(false, 2, Lsl, 0), PreIndex);
    ZeroWord(s.cpu.mem, 0x804);
    LoadIntoOffsetExact(op, [], HostOf(s), s, false);
  }

  /** `movs r0, r1, lsr #1` on an odd value. */
  lemma StaleCarryFails()
    ensures var s, op := Begin(1, 0, 0), Dp(MOV, true, 0, 0, ShiftImm(1, Lsr, 1));
            && Fair(op, s) && DpBody(MOV, true, 0, 0, op.src, s.pc).Some?
            && Parts(DpBody(MOV, true, 0, 0, op.src, s.pc).value, s, ExecDp(s, MOV, true, 0, 0, op.src))
  {
    hide DpBody, ExecDp, DoAll, AllStraight;
    var s := Begin(1, 0, 0);
    StaleCarryExact(MOV, 0, 0, ShiftImm(1, Lsr, 1), HostOf(s), s);
  }

  /** `umulls r0, r3, r1, r2` on a zero. */
  lemma MulLongFlagsFails(env: Env)
    ensures var s, op := Begin(0, 0, 0), MulLong(false, false, true, 0, 3, 1, 2);
            && Fair(op, s)
            && Parts([SMulLong(false, false, EReg(0), EReg(3), EReg(1), EReg(2))], s, ExecMulLong(s, env, op))
  {
    hide ExecMulLong, DoAll, AllStraight;
    var s, op := Begin(0, 0, 0), MulLong(false, false, true, 0, 3, 1, 2);
    assert Agree(HostOf(s), s, true);
    MulLongFlagsExact(env, op, HostOf(s), s);
  }

  /** `blx lr` with lr at 0: the emitted call goes to 0x104. */
  lemma BlxLrFails(p: Program, env: Env, fuel: nat, cx: Context)
    ensures var s, item := Begin(0, 0, 0), Item(0x100, Ins(AL, BlxReg(LR)));
            var t, c := RunBody(p, env, fuel, Emit(item, 0x104, cx).body, HostOf(s)),
                        Call(p, env, fuel, 0x104, SetReg(HostOf(s), LR, 0x104));
            && Fair(item.ins.op, s) && Exec(item.ins.op, env, s).Some? && Exec(item.ins.op, env, s).value.pc == 0
            && t == if c.out == Return then c.(out := Next) else c
  {
    hide RunBody, Call, Emit;
    var s, item := Begin(0, 0, 0), Item(0x100, Ins(AL, BlxReg(LR)));
    BlxLrExact(p, env, fuel, cx, item, HostOf(s), s, false);
  }

  /** r1 is 0x800, and the word after the one there is 8. */
  function Begin8(): State {
    var s := Begin(0x800, 0, 0);
    s.(cpu := s.cpu.(mem := s.cpu.mem[0x804 := 8]))
  }

  lemma Words8()
    ensures R32(Begin8().cpu.mem, 0x800) == 0 && R32(Begin8().cpu.mem, 0x804) == 8
  {
    ZeroWord(Begin8().cpu.mem, 0x800);
  }

  /** `ldr pc, [r1], #4`: the emitted call goes to the next word, here 8 and not 0. */
  lemma LoadPcWritebackFails(p: Program, env: Env, fuel: nat)
    ensures var s, op := Begin8(), Load(Word4, false, PC, 1, ByImm(4), PostIndex);
            && Fair(op, s) && Exec(op, env, s).Some? && Exec(op, env, s).value.pc == 0
            && RunBody(p, env, fuel, LoadBody(op, s.pc, []), HostOf(s))
               == Call(p, env, fuel, 8, SetReg(HostOf(s), 1, 0x804))
  {
    hide RunBody, Call, LoadBody, R32;
    var s, op := Begin8(), Load(Word4, false, PC, 1, ByImm(4), PostIndex);
    Words8();
    LoadPcWritebackExact(p, env, fuel, op, [], HostOf(s), s, false);
  }

  // ---- an unshifted table load ----

  /** `ldr pc, [pc, r2]` at 0x100, and a table behind it at 0x108. */
  function TableCode(): seq<Item> {
    [Item(0x100, Ins(AL, Load(Word4, false, PC, PC, ByReg(false, 2, Lsl, 0), Plain))), Item(0x104, Ins(AL, Bx(LR)))]
  }

  function TableSegs(): seq<Segment> {
    [Segment(0x108, 0x11C, [0, 1, 0, 0, 4, 1, 0, 0, 0, 1, 0, 0, 0, 1, 0, 0, 0, 1, 0, 0])]
  }

  function TableTargets(): seq<Word> {
    [0x100, 0x104, 0x100, 0x100, 0x100]
  }

  lemma TableWords()
    ensures ReadWord(TableSegs(), 0x108) == Some(0x100) && ReadWord(TableSegs(), 0x10C) == Some(0x104)
    ensures ReadWord(TableSegs(), 0x110) == Some(0x100) && ReadWord(TableSegs(), 0x114) == Some(0x100)
    ensures ReadWord(TableSegs(), 0x118) == Some(0x100) && ReadWord(TableSegs(), 0x11C) == None
  {
    assert ReadWord(TableSegs()[1..], 0x11C) == None;
  }

  lemma TableFound()
    ensures ContextOf(TableSegs(), TableCode()).tables == map[0x100 := JumpTable(2, TableTargets())]
  {
    hide ReadWord, TableFrom;
    var d, segs := TableCode(), TableSegs();
    var heads := HeadSet(d);
    assert heads == {0x100, 0x104};
    FromLast(segs, heads);
    assert TableOf(segs, heads, d[1]) == [];
    assert TablesFrom(segs, heads, d, 0) == map[];
    assert TablesFrom(segs, heads, d, 1) == map[0x100 := JumpTable(2, TableTargets())];
    assert TablesFrom(segs, heads, d, 2) == TablesFrom(segs, heads, d, 1);
  }

  lemma FromLast(segs: seq<Segment>, heads: set<Word>)
    requires segs == TableSegs() && heads == {0x100, 0x104}
    ensures TableFrom(segs, 0x108, heads, 0) == TableTargets()
  {
    hide ReadWord;
    TableWords();
    assert TableFrom(segs, 0x108, heads, 5) == [];
    assert TableFrom(segs, 0x108, heads, 4) == [0x100];
    assert TableFrom(segs, 0x108, heads, 3) == [0x100, 0x100];
    assert TableFrom(segs, 0x108, heads, 2) == [0x100, 0x100, 0x100];
    assert TableFrom(segs, 0x108, heads, 1) == [0x104, 0x100, 0x100, 0x100];
  }

  /** With 4 in r2 and 0x104 at 0x10C. */
  function BeginTable(): State {
    var s := Begin(0, 4, 0);
    s.(cpu := s.cpu.(mem := s.cpu.mem[0x10C := 4][0x10D := 1]))
  }

  lemma WordRead()
    ensures R32(BeginTable().cpu.mem, 0x10C) == 0x104
  {
  }

  /** ARM reads entry 1 and goes to 0x104; the emitted switch takes case 4, 0x100. */
  lemma UnshiftedTableFails(p: Program, env: Env, fuel: nat)
    ensures var s, item := BeginTable(), TableCode()[0];
            && Fair(item.ins.op, s) && Exec(item.ins.op, env, s).Some? && Exec(item.ins.op, env, s).value.pc == 0x104
            && RunBody(p, env, fuel, Emit(item, 0x104, ContextOf(TableSegs(), TableCode())).body, HostOf(s))
               == Trace(Goto(0x100), HostOf(s), [])
  {
    hide RunBody, R32, ContextOf, Emit;
    var s, item := BeginTable(), TableCode()[0];
    TableFound();
    WordRead();
    TableLoadExact(p, env, fuel, ContextOf(TableSegs(), TableCode()), item, 0x104, HostOf(s), s, false);
  }

  // ---- a marked call whose link was not set ----

  /** `movne lr, pc; bx r1; bx lr`, with an outside function at 0x2000. */
  function MarkedCode(): seq<Item> {
    [Item(0x100, Ins(NE, Dp(MOV, false, LR, 0, Reg(PC)))), Item(0x104, Ins(AL, Bx(1))), Item(0x108, Ins(AL, Bx(LR)))]
  }

  function MarkedFn(): Fn {
    Fn(0x100, 0x10C, 12, [0x100, 0x104, 0x108],
       map[0x100 := MarkedCode()[0].ins, 0x104 := MarkedCode()[1].ins, 0x108 := MarkedCode()[2].ins])
  }

  function MarkedSrc(): Source {
    Source(map[0x100 := MarkedFn()], [], {0x2000})
  }

  function MarkedText(): Code {
    Code(MarkedFn().disasm, {0x2000})
  }

  lemma MarkedDecodes()
    ensures Decoded(MarkedFn()) == MarkedCode()
  {
    var heads := HeadsOf(MarkedFn());
    assert DecodedFrom(MarkedFn(), heads, 1) == [MarkedCode()[0]];
    assert DecodedFrom(MarkedFn(), heads, 2) == [MarkedCode()[0], MarkedCode()[1]];
    assert DecodedFrom(MarkedFn(), heads, 3) == MarkedCode();
  }

  lemma MarkedItems()
    ensures ItemOk(MarkedCode(), 0) && ItemOk(MarkedCode(), 1) && ItemOk(MarkedCode(), 2)
    ensures Distinct(MarkedCode()) && IsIdiom(MarkedCode(), 1)
  {
    assert IsIdiom(MarkedCode(), 1);
  }

  lemma MarkedFine()
    ensures SourceOk(MarkedSrc(), MarkedText())
  {
    hide ItemOk, Distinct, Decoded;
    MarkedDecodes();
    MarkedItems();
  }

  /** At the `bx`, with Z set, the function to call in r1 and zero in lr. */
  function BeginMarked(): State {
    var s := Begin(0x2000, 0, 0);
    s.(cpu := s.cpu.(cpsr := s.cpu.cpsr.(z := true)), pc := 0x104)
  }

  /** The `mov` was skipped, so the callee takes the ARM machine back to 0; the emitted
      code goes on with the line of 0x108. */
  lemma MarkedCallFails(env: Env, fuel: nat) returns (n: nat, s1: State)
    requires forall log, a, r, m :: env.ext(log, a, r, m) == Returned(r, m)
    ensures SourceOk(MarkedSrc(), MarkedText()) && Decoded(MarkedFn()) == MarkedCode()
    ensures var line := EmitAt(MarkedSrc(), 0x100, 1);
            RunBody(Lifted(MarkedSrc()), env, fuel, line.body, HostOf(BeginMarked())).out == Next
    ensures Run(MarkedText(), env, n, BeginMarked()) == Some(s1) && s1.pc != 0x108
  {
    hide SourceOk, RunBody, EmitAt, Run, Call, Lifted, Decoded;
    MarkedFine();
    MarkedDecodes();
    MarkedItems();
    var s := BeginMarked();
    MarkedCallee(env, fuel);
    NoVisits(MarkedSrc(), false);
    n, s1 := MarkedCallExact(MarkedSrc(), MarkedText(), env, fuel, 0x100, 1, 0x2000, HostOf(s), s, false);
  }

  lemma MarkedCallee(env: Env, fuel: nat)
    requires forall log, a, r, m :: env.ext(log, a, r, m) == Returned(r, m)
    ensures var c := Call(Lifted(MarkedSrc()), env, fuel, 0x2000, HostOf(BeginMarked()));
            c.out == Return && c.visits == []
  {
    hide RunLines, LiftFunc;
  }
}
