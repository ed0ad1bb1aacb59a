/** Whole programs: what the lifter is right for, which runs are disciplined,
    and the theorem that a finished disciplined run of the lifted code is a run
    of the flat ARM machine. */
module Translation {
  import opened Words
  import opened Shifts
  import opened Guest
  import opened Wrappers
  import opened Arm
  import opened CCode
  import opened Lift
  import opened Segments
  import opened Simulation
  import opened MemorySim

  /** The extracted functions by address, the image, and the functions outside. */
  datatype Source = Source(fns: map<Word, Fn>, segs: seq<Segment>, exts: set<Word>)

  function Lifted(src: Source): Program {
    Program(map a | a in src.fns :: LiftFunc(src.segs, src.fns[a]), src.exts)
  }

  // ---- static side conditions ----

  /** Is d[i] a branch or load that always leaves the function or jumps inside it? */
  predicate NeverContinues(d: seq<Item>, i: nat)
    requires i < |d|
  {
    var op := d[i].ins.op;
    d[i].ins.cond == AL &&
    match op
    case B(_) => true
    case Bx(rm) => rm == LR || d[i].addr !in CallContinue(d)
    case Pop(regs) => PC in regs
    case Block(load, _, _, _, regs) => load && PC in regs
    case Load(_, _, rd, _, _, _) => rd == PC
    case _ => false
  }

  predicate ItemOk(d: seq<Item>, i: nat)
    requires i < |d|
  {
    && d[i].addr % 4 == 0 && d[i].addr < 0xFFFF_FFF0
    && Predictable(d[i].ins.op) && Liftable(d[i].ins.op)
    && (NeverContinues(d, i) || (i + 1 < |d| && d[i + 1].addr == d[i].addr + 4))
  }

  /** Whenever b passes, so does a. */
  predicate Entails(b: Cond, a: Cond) {
    forall n: bool, z: bool, c: bool, v: bool :: CcTest(b, Psr(n, z, c, v, 0)) ==> CcTest(a, Psr(n, z, c, v, 0))
  }

  /** `mov lr, pc` and the `bx` it prepares stand together: adjacent, no jump between
      them, and the `mov` carried out whenever the `bx` is. */
  predicate IdiomTight(segs: seq<Segment>, d: seq<Item>, i: nat)
    requires i < |d|
  {
    && IsIdiom(d, i) && d[i].ins.op.Bx?
    && d[i].addr == d[i - 1].addr + 4 && Entails(d[i].ins.cond, d[i - 1].ins.cond)
    && d[i].addr !in Labels(segs, d)
  }

  predicate Distinct(d: seq<Item>) {
    forall i, j :: 0 <= i < j < |d| ==> d[i].addr != d[j].addr
  }

  predicate FnOk(segs: seq<Segment>, entry: Word, d: seq<Item>) {
    && d != [] && d[0].addr == entry && Distinct(d)
    && (forall i :: 0 <= i < |d| ==> ItemOk(d, i))
  }

  /** The function at a is extracted soundly, and the text holds its instructions. */
  predicate FnHeld(src: Source, code: Code, a: Word)
    requires a in src.fns
  {
    var d := Decoded(src.fns[a]);
    && FnOk(src.segs, a, d)
    && forall i :: 0 <= i < |d| ==> d[i].addr in code.text && code.text[d[i].addr] == d[i].ins
  }

  /** An outside function lies outside the text. */
  predicate ExtHeld(src: Source, code: Code, a: Word) {
    a % 4 == 0 && a !in code.text && a !in src.fns
  }

  /** The ARM text holds every extracted instruction; outside functions lie elsewhere. */
  predicate SourceOk(src: Source, code: Code) {
    && code.exts == src.exts
    && (forall a {:trigger ExtHeld(src, code, a)} :: a in src.exts ==> ExtHeld(src, code, a))
    && (forall a {:trigger FnHeld(src, code, a)} :: a in src.fns ==> FnHeld(src, code, a))
  }

  // ---- disciplined runs ----

  /** A return or tail call lets the address lr held on entry enter the program counter. */
  predicate ReturnOk(cx: Context, item: Item, ret: Word, cpu: Cpu) {
    var pc, op, r := item.addr, item.ins.op, cpu.r;
    match op
    case B(target) => target in cx.heads || r[LR] == ret
    case Bx(rm) => (rm != LR && pc in cx.callContinue) || r[LR] == ret
    case Pop(regs) => PC in regs ==> R32(cpu.mem, Wrap(r[SP] + 4 * Rank(regs, PC))) == ret
    case Block(load, mode, rn, _, regs) =>
      load && PC in regs && rn != PC ==>
        R32(cpu.mem, Wrap(BlockStart(mode, r[rn], Count(regs)) + 4 * Rank(regs, PC))) == ret
    case Load(_, _, rd, _, _, _) => rd == PC && pc !in cx.tables ==> r[LR] == ret
    case _ => true
  }

  /** A word as a branch target: the two low bits are ignored. */
  function Aligned4(v: Word): Word {
    v - v % 4
  }

  /** The index is inside the recovered table, and the load reads that entry. */
  predicate TableOk(cx: Context, item: Item, cpu: Cpu) {
    item.addr in cx.tables && item.ins.op.Load? ==>
      var t := cx.tables[item.addr];
      && cpu.r[t.idx] < |t.targets|
      && Aligned4(R32(cpu.mem, Moved(item.ins.op.rn, item.ins.op.off, item.addr, cpu.r))) == t.targets[cpu.r[t.idx]]
  }

  /** What a run must respect at each instruction it reaches. */
  predicate StepOk(cx: Context, item: Item, ret: Word, cpu: Cpu, stale: bool) {
    && (ReadsCarry(item.ins.cond) ==> !stale)
    && (CcTest(item.ins.cond, cpu.cpsr) ==>
          && AccessOk(item.ins.op, item.addr, cpu.r, cpu.mem)
          && LiteralIntact(item.ins.op, item.addr, cx.segs, cpu.r, cpu.mem)
          && TableOk(cx, item, cpu)
          && ReturnOk(cx, item, ret, cpu))
  }

  predicate IsPoint(src: Source, v: Visit) {
    v.fn in src.fns && v.line < |Decoded(src.fns[v.fn])|
  }

  function ItemOf(src: Source, v: Visit): Item
    requires IsPoint(src, v)
  {
    Decoded(src.fns[v.fn])[v.line]
  }

  function NextStale(src: Source, v: Visit, stale: bool): bool {
    if IsPoint(src, v) && CcTest(ItemOf(src, v).ins.cond, v.cpu.cpsr)
    then StaleAfter(ItemOf(src, v).ins.op, stale) else stale
  }

  /** Staleness of the carry after the visits. */
  function StaleAtEnd(src: Source, stale: bool, visits: seq<Visit>): bool
    decreases |visits|
  {
    if visits == [] then stale else StaleAtEnd(src, NextStale(src, visits[0], stale), visits[1..])
  }

  /** At a `bx` marked as a call that does not stand tight with its `mov lr, pc`, lr
      holds the address after it all the same. */
  predicate LinkOk(segs: seq<Segment>, d: seq<Item>, i: nat, cpu: Cpu)
    requires i < |d|
  {
    IsIdiom(d, i) && d[i].ins.op.Bx? && d[i].ins.op.rm != LR && CcTest(d[i].ins.cond, cpu.cpsr) ==>
      IdiomTight(segs, d, i) || cpu.r[LR] == d[i].addr + 4
  }

  predicate VisitOk(src: Source, v: Visit, stale: bool) {
    && IsPoint(src, v)
    && LinkOk(src.segs, Decoded(src.fns[v.fn]), v.line, v.cpu)
    && StepOk(ContextOf(src.segs, Decoded(src.fns[v.fn])), ItemOf(src, v), v.ret, v.cpu, stale)
  }

  predicate Disciplined(src: Source, stale: bool, visits: seq<Visit>)
    decreases |visits|
  {
    visits == [] ||
    (VisitOk(src, visits[0], stale) && Disciplined(src, NextStale(src, visits[0], stale), visits[1..]))
  }

  lemma {:induction false} VisitsConcat(src: Source, stale: bool, a: seq<Visit>, b: seq<Visit>)
    ensures StaleAtEnd(src, stale, a + b) == StaleAtEnd(src, StaleAtEnd(src, stale, a), b)
    ensures Disciplined(src, stale, a + b) <==>
            Disciplined(src, stale, a) && Disciplined(src, StaleAtEnd(src, stale, a), b)
    decreases |a|
  {
    hide VisitOk, NextStale;
    if a == [] {
      assert a + b == b;
    } else {
      assert (a + b)[1..] == a[1..] + b;
      VisitsConcat(src, NextStale(src, a[0], stale), a[1..], b);
    }
  }

  // ---- labels ----

  /** The address is the label of exactly one line, that of the instruction there. */
  predicate MarksOne(segs: seq<Segment>, fn: Fn, target: Word) {
    var lines, d := LiftFunc(segs, fn), Decoded(fn);
    var j := FindLabel(lines, target);
    && 0 <= j < |d| && d[j].addr == target
    && forall k :: 0 <= k < |lines| && lines[k].mark == Some(target) ==> k == j
  }

  lemma LabelPlaced(segs: seq<Segment>, fn: Fn, target: Word)
    requires Distinct(Decoded(fn)) && target in Labels(segs, Decoded(fn))
    ensures MarksOne(segs, fn, target)
  {
    hide Emit, Decoded, Labels, ContextOf;
    var lines, d := LiftFunc(segs, fn), Decoded(fn);
    LabelInItems(segs, d, target);
    var j :| 0 <= j < |d| && d[j].addr == target;
    assert lines[j] == LineAt(segs, fn, j);
  }

  lemma LabelInItems(segs: seq<Segment>, d: seq<Item>, target: Word)
    requires target in Labels(segs, d)
    ensures exists j :: 0 <= j < |d| && d[j].addr == target
  {
    hide LabelsTo;
    LabelsLocal(segs, d, |d|);
    assert target in HeadSet(d);
  }

  /** An entry of the table map comes from one table load. */
  lemma {:induction false} TableEntry(segs: seq<Segment>, heads: set<Word>, d: seq<Item>, n: nat, a: Word)
    requires n <= |d| && a in TablesFrom(segs, heads, d, n)
    ensures exists j :: && 0 <= j < n && d[j].addr == a && IsTableLoad(d[j].ins)
                        && TablesFrom(segs, heads, d, n)[a] == JumpTable(d[j].ins.op.off.rm, TableOf(segs, heads, d[j]))
  {
    hide TableFrom;
    var t := TableOf(segs, heads, d[n - 1]);
    if t != [] && a == d[n - 1].addr {
    } else {
      TableEntry(segs, heads, d, n - 1, a);
    }
  }

  lemma TableAt(segs: seq<Segment>, d: seq<Item>, i: nat)
    requires i < |d| && Distinct(d) && d[i].addr in ContextOf(segs, d).tables
    ensures IsTableLoad(d[i].ins)
    ensures ContextOf(segs, d).tables[d[i].addr] == JumpTable(d[i].ins.op.off.rm, TableOf(segs, HeadSet(d), d[i]))
  {
    hide TableFrom, TablesFrom, TableOf;
    TableEntry(segs, HeadSet(d), d, |d|, d[i].addr);
  }

  // ---- jumps ----

  predicate JumpsTo(st: Stmt, target: Word) {
    st == SGoto(target) || (st.SSwitch? && target in st.targets)
  }

  /** Block transfers are made of assignments and stores. */
  lemma {:induction false} OnlyMoves(regs: seq<RegNo>, load: bool, low: int, i: nat)
    requires i <= |regs|
    ensures forall st :: st in PushStores(regs, i) ==> st.SStore?
    ensures forall st :: st in PopLoads(regs, i) ==> st.SAssign?
    ensures forall st :: st in BlockMoves(load, regs, low, i) ==> st.SStore? || st.SAssign?
  {
    hide BaseOffE;
    if i > 0 {
      OnlyMoves(regs, load, low, i - 1);
      var tail := if regs[i - 1] == PC then []
        else [SAssign(EReg(regs[i - 1]), ELoad(Word4, false, EBin(CAdd, EReg(SP), EConst(Wrap(4 * (i - 1))))))];
      assert PopLoads(regs, i) == PopLoads(regs, i - 1) + tail;
    }
  }

  lemma TransferJumpFree(op: Op, pc: Word, segs: seq<Segment>, st: Stmt, target: Word)
    requires (op.Push? || op.Pop? || op.Block?) && st in Body(op, pc, segs).value
    ensures !JumpsTo(st, target)
  {
    hide Ascending, BaseOffE, PushStores, PopLoads, BlockMoves, Low;
    var rs := Ascending(op.regs);
    OnlyMoves(rs, op.Block? && op.load, if op.Block? then Low(op.mode, |rs|) else 0, |rs|);
  }

  lemma BodyJumpFree(op: Op, pc: Word, segs: seq<Segment>, st: Stmt, target: Word)
    requires !(op.B? || op.Bl? || op.Bx? || op.BlxReg?) && Body(op, pc, segs).Some? && st in Body(op, pc, segs).value
    ensures !JumpsTo(st, target)
  {
    hide PushBody, PopBody, BlockBody, SrcE, LogicalE, Literal, AccessE, OffsetE, PostE;
    if op.Push? || op.Pop? || op.Block? {
      TransferJumpFree(op, pc, segs, st, target);
    }
  }

  /** A jump is emitted for a local branch, or for an entry of a recovered table. */
  lemma EmittedJump(cx: Context, item: Item, next: Word, st: Stmt, target: Word)
    requires st in Emit(item, next, cx).body && JumpsTo(st, target)
    ensures if item.ins.op.B? then target == item.ins.op.target && target in cx.heads
            else item.addr in cx.tables && target in cx.tables[item.addr].targets
  {
    hide Body;
    var op := item.ins.op;
    if !(op.B? || op.Bl? || op.Bx? || op.BlxReg? || item.addr in cx.tables) && Body(op, item.addr, cx.segs).Some? {
      BodyJumpFree(op, item.addr, cx.segs, st, target);
    }
  }

  /** Every goto or switch target in a lifted function is a label emitted exactly
      once, on the line lifted from the instruction at that address. */
  lemma LabelsResolve(segs: seq<Segment>, fn: Fn, i: nat, st: Stmt, target: Word)
    requires Distinct(Decoded(fn)) && i < |LiftFunc(segs, fn)|
    requires st in LiftFunc(segs, fn)[i].body && JumpsTo(st, target)
    ensures MarksOne(segs, fn, target)
  {
    hide Decoded, Emit, TableFrom, TableOf, MarksOne, JumpsTo;
    var d := Decoded(fn);
    assert LiftFunc(segs, fn)[i] == LineAt(segs, fn, i);
    EmittedJump(ContextOf(segs, d), d[i], NextAddr(fn, d, i), st, target);
    if d[i].addr in ContextOf(segs, d).tables && !d[i].ins.op.B? {
      TableAt(segs, d, i);
    }
    LabelIntro(segs, d, |d|, i, target);
    LabelPlaced(segs, fn, target);
  }
}
