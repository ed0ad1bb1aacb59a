/** Constants the lifter reads at lift time against the loaded image at run time:
    folded literals and jump tables. */
module Literals {
  import opened Words
  import opened Shifts
  import opened Guest
  import opened Machine
  import opened Wrappers
  import opened Segments
  import opened Arm
  import opened CCode
  import opened Lift
  import opened Simulation
  import opened MemorySim
  import opened Translation
  import opened Correctness
  import opened ImageFile
  import opened LiftLaws

  /** m still holds, in the n bytes at a, what loading the packed segments put there. */
  predicate Unmodified(m: Mem, segs: seq<Segment>, before: Mem, a: int, n: nat) {
    && |m| == |before| && 0 <= a && a + n <= |m|
    && forall x :: a <= x < a + n ==> m[x] == Overlay(before, segs)[x]
  }

  lemma UnmodifiedReads(m: Mem, segs: seq<Segment>, before: Mem, a: int, n: nat, va: int)
    requires Unmodified(m, segs, before, a, n) && a <= va && va + 4 <= a + n
    ensures R32(m, va) == R32(Overlay(before, segs), va)
  {
    hide Overlay, Compose;
  }

  /** A word the lifter read is the word memory holds, wherever memory is unmodified. */
  lemma ReadAgrees(m: Mem, segs: seq<Segment>, before: Mem, va: int)
    requires Dumped(segs, |before|) && ReadWord(segs, va).Some? && Unmodified(m, segs, before, va, 4)
    ensures R32(m, va) == ReadWord(segs, va).value
  {
    hide Overlay, ReadWord, R32;
    FoldingAgrees(before, segs, va);
    UnmodifiedReads(m, segs, before, va, 4, va);
  }

  // ---- folded literals ----

  /** A load the lifter folds reads the literal pool word at the address it folded. */
  lemma LiteralAddrIs(op: Op, pc: Word, r: Regs)
    requires LiteralAddr(op, pc).Some? && 0 <= LiteralAddr(op, pc).value < 0x1_0000_0000
    ensures AccessAddr(op.rn, op.off, op.ix, pc, r) == LiteralAddr(op, pc).value
  {
  }

  /** Folding a PC-relative load keeps its meaning in every state whose literal is
      unmodified since the image was loaded. */
  lemma FoldedLiteralIntact(op: Op, pc: Word, segs: seq<Segment>, before: Mem, r: Regs, m: Mem)
    requires Dumped(segs, |before|)
    requires Literal(op, pc, segs).Some? ==> Unmodified(m, segs, before, LiteralAddr(op, pc).value, 4)
    ensures LiteralIntact(op, pc, segs, r, m)
  {
    hide Overlay, ReadWord, R32, AccessAddr, LiteralAddr;
    if Literal(op, pc, segs).Some? {
      LiteralAddrIs(op, pc, r);
      ReadAgrees(m, segs, before, LiteralAddr(op, pc).value);
    }
  }

  // ---- jump tables ----

  /** The address of entry x of the table behind a load at pc. */
  function TableSlot(pc: Word, x: Word): int {
    pc as int + 8 + 4 * (x as int)
  }

  /** `ldr pc, [pc, rN, lsl #2]` without writeback. The lifter looks at neither shift,
      sign nor writeback. */
  predicate TableShape(ins: Ins) {
    && LoadsPcByIndex(ins.op) && ins.op.ix == Plain
    && ins.op.off == ByReg(false, ins.op.off.rm, Lsl, 2) && ins.op.off.rm != PC
  }

  /** The load reads the entry its index register selects: always so for that shape. */
  predicate ReadsEntry(ins: Ins, pc: Word, r: Regs)
    requires LoadsPcByIndex(ins.op)
  {
    TableShape(ins) || Moved(ins.op.rn, ins.op.off, pc, r) == TableSlot(pc, r[ins.op.off.rm])
  }

  /** `ldr pc, [pc, rN, lsl #2]` loads the entry that rN selects. */
  lemma TableAddr(ins: Ins, pc: Word, r: Regs)
    requires TableShape(ins)
    requires TableSlot(pc, r[ins.op.off.rm]) < 0x1_0000_0000
    ensures Moved(ins.op.rn, ins.op.off, pc, r) == TableSlot(pc, r[ins.op.off.rm])
  {
    ShiftTwo(r[ins.op.off.rm]);
  }

  lemma ShiftTwo(x: Word)
    requires 4 * (x as int) < 0x1_0000_0000
    ensures Shifted(Lsl, x, 2) == 4 * x
  {
    ConstShiftCorrect(Lsl, x, 2);
    assert Pow2(2) == 4;
  }

  lemma PredictableAt(d: seq<Item>, i: nat)
    requires i < |d| && ItemOk(d, i)
    ensures Predictable(d[i].ins.op)
  {
  }

  lemma InHeads(d: seq<Item>, a: Word)
    requires a in HeadSet(d)
    ensures exists j :: 0 <= j < |d| && d[j].addr == a
  {
  }

  lemma TableRead(segs: seq<Segment>, heads: set<Word>, item: Item)
    requires IsTableLoad(item.ins)
    ensures TableOf(segs, heads, item) == TableFrom(segs, item.addr + 8, heads, 0)
  {
    hide TableFrom;
  }

  /** A recovered entry is the table word the lifter read, and a local instruction. */
  lemma TableWord(segs: seq<Segment>, heads: set<Word>, item: Item, x: nat)
    requires IsTableLoad(item.ins) && x < |TableOf(segs, heads, item)|
    ensures ReadWord(segs, item.addr + 8 + 4 * x) == Some(TableOf(segs, heads, item)[x])
    ensures TableOf(segs, heads, item)[x] in heads
  {
    hide ReadWord, TableOf, IsTableLoad, TableFrom;
    TableRead(segs, heads, item);
  }

  lemma SwitchEmitted(src: Source, fn: Word, i: nat)
    requires fn in src.fns && i < |Decoded(src.fns[fn])| && IsTableLoad(Decoded(src.fns[fn])[i].ins)
    requires var d := Decoded(src.fns[fn]); d[i].addr in ContextOf(src.segs, d).tables
    ensures var d := Decoded(src.fns[fn]);
            var t := ContextOf(src.segs, d).tables[d[i].addr];
            EmitAt(src, fn, i).body == [SSwitch(t.idx, t.targets)]
  {
    hide Decoded, ContextOf;
  }

  predicate TableEntryLocal(segs: seq<Segment>, heads: set<Word>, item: Item, k: nat) {
    var w := ReadWord(segs, item.addr + 8 + 4 * k);
    w.Some? && w.value in heads
  }

  lemma TableStops(segs: seq<Segment>, heads: set<Word>, item: Item)
    requires IsTableLoad(item.ins)
    ensures var n := |TableOf(segs, heads, item)|;
            n <= 256 && (n < 256 ==> !TableEntryLocal(segs, heads, item, n))
  {
    hide ReadWord, TableOf, IsTableLoad, TableFrom;
    TableRead(segs, heads, item);
  }

  /** The recovered targets are the longest prefix, up to 256 words, of the table
      whose words are addresses of local instructions. */
  lemma TableIsLongestPrefix(segs: seq<Segment>, heads: set<Word>, item: Item, n: nat)
    requires IsTableLoad(item.ins)
    ensures n <= |TableOf(segs, heads, item)| <==>
            n <= 256 && forall k: nat :: k < n ==> TableEntryLocal(segs, heads, item, k)
  {
    hide TableOf, IsTableLoad;
    var t := TableOf(segs, heads, item);
    TableStops(segs, heads, item);
    forall k: nat | k < |t|
      ensures TableEntryLocal(segs, heads, item, k)
    {
      TableWord(segs, heads, item, k);
    }
  }

  /** A table entry whose word is unmodified is the one memory holds. */
  lemma TableIntact(src: Source, code: Code, fn: Word, d: seq<Item>, i: nat, t: JumpTable, before: Mem, cpu: Cpu)
    requires SourceOk(src, code) && fn in src.fns && d == Decoded(src.fns[fn]) && i < |d|
    requires d[i].addr in ContextOf(src.segs, d).tables && ContextOf(src.segs, d).tables[d[i].addr] == t
    requires Dumped(src.segs, |before|) && cpu.r[t.idx] < |t.targets|
    requires LoadsPcByIndex(d[i].ins.op) ==> ReadsEntry(d[i].ins, d[i].addr, cpu.r)
    requires Unmodified(cpu.mem, src.segs, before, TableSlot(d[i].addr, cpu.r[t.idx]), 4)
    ensures R32(cpu.mem, TableSlot(d[i].addr, cpu.r[t.idx])) == t.targets[cpu.r[t.idx]]
    ensures TableOk(ContextOf(src.segs, d), d[i], cpu)
    ensures IsTableLoad(d[i].ins) && t.idx == d[i].ins.op.off.rm
    ensures exists j :: 0 <= j < |d| && d[j].addr == t.targets[cpu.r[t.idx]]
  {
    hide Decoded, ContextOf, Overlay, R32, Moved, SourceOk, ItemOk, Distinct, Dumped, ReadWord, TableFrom,
         TableOf;
    ItemFacts(src, code, fn, i);
    TableAt(src.segs, d, i);
    var x := cpu.r[t.idx];
    TableWord(src.segs, HeadSet(d), d[i], x);
    if TableShape(d[i].ins) { TableAddr(d[i].ins, d[i].addr, cpu.r); }
    TargetsAligned(src, code, fn, i);
    assert t.targets[x] in t.targets;
    ReadAgrees(cpu.mem, src.segs, before, TableSlot(d[i].addr, x));
    InHeads(d, t.targets[x]);
  }

  /** The same for a table known to the lifter. */
  lemma TableGoes(src: Source, code: Code, env: Env, fuel: nat, fn: Word, d: seq<Item>, i: nat, t: JumpTable,
                  before: Mem, h: Host, s: State, stale: bool)
    requires SourceOk(src, code) && fn in src.fns && d == Decoded(src.fns[fn]) && i < |d| && s.pc == d[i].addr
    requires s.pc in ContextOf(src.segs, d).tables && ContextOf(src.segs, d).tables[s.pc] == t
    requires Dumped(src.segs, |before|) && Agree(h, s, stale) && h.cpu.r[t.idx] < |t.targets|
    requires AccessOk(d[i].ins.op, s.pc, h.cpu.r, h.cpu.mem)
    requires LoadsPcByIndex(d[i].ins.op) ==> ReadsEntry(d[i].ins, s.pc, h.cpu.r)
    requires Unmodified(h.cpu.mem, src.segs, before, TableSlot(s.pc, h.cpu.r[t.idx]), 4)
    ensures var target := t.targets[h.cpu.r[t.idx]];
            && RunBody(Lifted(src), env, fuel, EmitAt(src, fn, i).body, h) == Trace(Goto(target), h, [])
            && Exec(d[i].ins.op, env, s) == Some(s.(pc := target))
            && R32(h.cpu.mem, TableSlot(s.pc, h.cpu.r[t.idx])) == target
            && TableOk(ContextOf(src.segs, d), d[i], h.cpu)
            && exists j :: 0 <= j < |d| && d[j].addr == target
  {
    hide Decoded, ContextOf, AccessOk, Lifted, R32, Moved, SourceOk, ItemOk, Distinct, Exec, RunBody,
         Dumped, EmitAt, TableOk, Unmodified, TableOf, IsTableLoad, ReadsEntry;
    ItemFacts(src, code, fn, i);
    TableIntact(src, code, fn, d, i, t, before, h.cpu);
    PredictableAt(d, i);
    SwitchRuns(Lifted(src), env, fuel, t, h);
    SwitchEmitted(src, fn, i);
    TableSim(d[i].ins.op, env, ContextOf(src.segs, d), d[i], h, s, stale);
  }

  /** Take any word load into pc off pc by a register, under any condition, and an index
      up to which the words behind it are addresses of decoded instructions. The emitted
      line goes to the instruction the load reaches, in every state in which the condition
      passes, the load reads the entry the index selects, and that word is unmodified. */
  lemma JumpTableLowering(src: Source, code: Code, env: Env, fuel: nat, fn: Word, d: seq<Item>, i: nat, n: nat,
                          before: Mem, h: Host, s: State, stale: bool)
    requires SourceOk(src, code) && fn in src.fns && d == Decoded(src.fns[fn]) && i < |d| && s.pc == d[i].addr
    requires LoadsPcByIndex(d[i].ins.op) && CcTest(d[i].ins.cond, h.cpu.cpsr)
    requires (ReadsCarry(d[i].ins.cond) ==> !stale) && Agree(h, s, stale)
    requires n == h.cpu.r[d[i].ins.op.off.rm] && n < 256
    requires forall k: nat :: k <= n ==> LocalWord(src.segs, d, s.pc as int + 8 + 4 * k)
    requires Dumped(src.segs, |before|) && AccessOk(d[i].ins.op, s.pc, h.cpu.r, h.cpu.mem)
    requires ReadsEntry(d[i].ins, s.pc, h.cpu.r) && Unmodified(h.cpu.mem, src.segs, before, TableSlot(s.pc, n), 4)
    ensures fn in Lifted(src).fns && i < |Lifted(src).fns[fn]| && ReadWord(src.segs, TableSlot(s.pc, n)).Some?
    ensures var target := ReadWord(src.segs, TableSlot(s.pc, n)).value;
            && RunLine(Lifted(src), env, fuel, Lifted(src).fns[fn][i], h) == Trace(Goto(target), h, [])
            && Run(code, env, 1, s) == Some(s.(pc := target)) && IsHead(d, target)
  {
    hide Decoded, ContextOf, AccessOk, Lifted, SourceOk, Exec, Run, RunLine, LiftFunc, Dumped, Unmodified, ReadWord,
         IsHead, Distinct, ItemOk, TableOf, TableFrom, TablesFrom, ReadsEntry, LocalWord, CcTest, Passes,
         TableOk, EmitAt, RunBody;
    ItemFacts(src, code, fn, i);
    LinesOf(src, fn);
    CondAgrees(d[i].ins.cond, h, s, stale);
    SwitchLine(Lifted(src), env, fuel, src.segs, src.fns[fn], i, n, h);
    LocalIsHead(src.segs, d, s.pc as int + 8 + 4 * n);
    var t := InTables(src, code, fn, d, i, n);
    TableGoes(src, code, env, fuel, fn, d, i, t, before, h, s, stale);
    StepExecutes(code, env, s, d[i].ins);
  }

  lemma LocalIsHead(segs: seq<Segment>, d: seq<Item>, a: int)
    requires LocalWord(segs, d, a)
    ensures ReadWord(segs, a).Some? && IsHead(d, ReadWord(segs, a).value)
  {
  }

  lemma InTables(src: Source, code: Code, fn: Word, d: seq<Item>, i: nat, n: nat) returns (t: JumpTable)
    requires SourceOk(src, code) && fn in src.fns && d == Decoded(src.fns[fn]) && i < |d| && n < 256
    requires LoadsPcByIndex(d[i].ins.op)
    requires forall k: nat :: k <= n ==> LocalWord(src.segs, d, d[i].addr as int + 8 + 4 * k)
    ensures d[i].addr in ContextOf(src.segs, d).tables && ContextOf(src.segs, d).tables[d[i].addr] == t
    ensures t.idx == d[i].ins.op.off.rm && n < |t.targets|
    ensures ReadWord(src.segs, d[i].addr as int + 8 + 4 * n) == Some(t.targets[n])
  {
    hide SourceOk, Decoded, TableOf, TablesFrom, TableFrom, ReadWord, IsHead, HeadSet, CallContinue, ItemOk, Distinct;
    ItemFacts(src, code, fn, i);
    var ts, tbl := TableOf(src.segs, HeadSet(d), d[i]), d[i].addr as int + 8;
    TableMeans(src.segs, d, d[i]);
    assert LocalWord(src.segs, d, tbl + 4 * 0);
    assert |ts| <= n ==> LocalWord(src.segs, d, tbl + 4 * |ts|);
    TableMember(src.segs, HeadSet(d), d, |d|, i);
    TableAt(src.segs, d, i);
    t := ContextOf(src.segs, d).tables[d[i].addr];
  }

  // ---- the translation theorem over a loaded image ----

  /** The load reads entry k, and its target is that of the entry the index selects. */
  predicate ReadsAlike(item: Item, t: JumpTable, k: nat, cpu: Cpu)
    requires k < |t.targets| && cpu.r[t.idx] < |t.targets| && item.ins.op.Load?
  {
    k < 0x1_0000_0000 && Moved(item.ins.op.rn, item.ins.op.off, item.addr, cpu.r) == TableSlot(item.addr, k)
    && t.targets[k] == t.targets[cpu.r[t.idx]]
  }

  /** A load that reads another entry goes where the switch does if their targets are one. */
  lemma OtherEntryIntact(src: Source, code: Code, fn: Word, d: seq<Item>, i: nat, t: JumpTable, before: Mem, cpu: Cpu,
                         k: nat)
    requires SourceOk(src, code) && fn in src.fns && d == Decoded(src.fns[fn]) && i < |d| && d[i].ins.op.Load?
    requires d[i].addr in ContextOf(src.segs, d).tables && ContextOf(src.segs, d).tables[d[i].addr] == t
    requires Dumped(src.segs, |before|) && cpu.r[t.idx] < |t.targets| && k < |t.targets|
    requires ReadsAlike(d[i], t, k, cpu) && Unmodified(cpu.mem, src.segs, before, TableSlot(d[i].addr, k), 4)
    ensures TableOk(ContextOf(src.segs, d), d[i], cpu)
  {
    hide Decoded, ContextOf, Overlay, R32, Moved, SourceOk, ItemOk, Distinct, Dumped, ReadWord, TableFrom, TableOf;
    ItemFacts(src, code, fn, i);
    TableAt(src.segs, d, i);
    TableWord(src.segs, HeadSet(d), d[i], k);
    TargetsAligned(src, code, fn, i);
    assert t.targets[k] in t.targets;
    ReadAgrees(cpu.mem, src.segs, before, TableSlot(d[i].addr, k));
  }

  /** The literal or table word the instruction depends on is as it was loaded; for a table
      load of another shape than the usual, its entry leads where the selected one does. */
  predicate ConstantsKept(cx: Context, item: Item, before: Mem, cpu: Cpu) {
    && (Literal(item.ins.op, item.addr, cx.segs).Some? ==>
          Unmodified(cpu.mem, cx.segs, before, LiteralAddr(item.ins.op, item.addr).value, 4))
    && (item.addr in cx.tables && item.ins.op.Load? ==>
          var t := cx.tables[item.addr];
          && cpu.r[t.idx] < |t.targets|
          && if TableShape(item.ins) then Unmodified(cpu.mem, cx.segs, before, TableSlot(item.addr, cpu.r[t.idx]), 4)
             else exists k :: 0 <= k < |t.targets| && ReadsAlike(item, t, k, cpu)
                              && Unmodified(cpu.mem, cx.segs, before, TableSlot(item.addr, k), 4))
  }

  predicate ImageStepOk(cx: Context, item: Item, ret: Word, before: Mem, cpu: Cpu, stale: bool) {
    && (ReadsCarry(item.ins.cond) ==> !stale)
    && (CcTest(item.ins.cond, cpu.cpsr) ==>
          && AccessOk(item.ins.op, item.addr, cpu.r, cpu.mem)
          && ConstantsKept(cx, item, before, cpu)
          && ReturnOk(cx, item, ret, cpu))
  }

  predicate ImageVisitOk(src: Source, before: Mem, v: Visit, stale: bool) {
    && IsPoint(src, v)
    && LinkOk(src.segs, Decoded(src.fns[v.fn]), v.line, v.cpu)
    && ImageStepOk(ContextOf(src.segs, Decoded(src.fns[v.fn])), ItemOf(src, v), v.ret, before, v.cpu, stale)
  }

  /** Disciplined, with the constants of the image unmodified wherever the run uses them. */
  predicate ImageDisciplined(src: Source, before: Mem, stale: bool, visits: seq<Visit>)
    decreases |visits|
  {
    visits == [] ||
    (&& ImageVisitOk(src, before, visits[0], stale)
     && ImageDisciplined(src, before, NextStale(src, visits[0], stale), visits[1..]))
  }

  lemma ImageVisit(src: Source, code: Code, before: Mem, v: Visit, stale: bool)
    requires SourceOk(src, code) && Dumped(src.segs, |before|) && ImageVisitOk(src, before, v, stale)
    ensures VisitOk(src, v, stale)
  {
    hide Decoded, ContextOf, AccessOk, SourceOk, Dumped, Literal, LiteralAddr, LiteralIntact, Unmodified, ReturnOk;
    var d := Decoded(src.fns[v.fn]);
    var cx, item := ContextOf(src.segs, d), ItemOf(src, v);
    SegsOf(src.segs, d);
    if CcTest(item.ins.cond, v.cpu.cpsr) {
      FoldedLiteralIntact(item.ins.op, item.addr, src.segs, before, v.cpu.r, v.cpu.mem);
      if item.addr in cx.tables && TableShape(item.ins) {
        TableIntact(src, code, v.fn, d, v.line, cx.tables[item.addr], before, v.cpu);
      } else if item.addr in cx.tables && item.ins.op.Load? {
        var t := cx.tables[item.addr];
        var k :| 0 <= k < |t.targets| && ReadsAlike(item, t, k, v.cpu)
                 && Unmodified(v.cpu.mem, cx.segs, before, TableSlot(item.addr, k), 4);
        OtherEntryIntact(src, code, v.fn, d, v.line, t, before, v.cpu, k);
      }
    }
  }

  lemma {:induction false} ImageRun(src: Source, code: Code, before: Mem, stale: bool, visits: seq<Visit>)
    requires SourceOk(src, code) && Dumped(src.segs, |before|) && ImageDisciplined(src, before, stale, visits)
    ensures Disciplined(src, stale, visits)
    decreases |visits|
  {
    hide SourceOk, Dumped, ImageVisitOk, VisitOk, NextStale;
    if visits != [] {
      ImageVisit(src, code, before, visits[0], stale);
      ImageRun(src, code, before, NextStale(src, visits[0], stale), visits[1..]);
    }
  }

  /** The translation theorem for a program whose image was packed and loaded over the
      memory before: it is enough that each word the lifter folded or tabulated still is, when
      the run uses it, what loading put there. */
  lemma TranslationOverImage(src: Source, code: Code, env: Env, before: Mem, fuel: nat, addr: Word, h: Host, s: State,
                             stale: bool)
    returns (n: nat, s1: State)
    requires SourceOk(src, code) && addr in src.fns && Dumped(src.segs, |before|)
    requires Agree(h, s, stale) && s.pc == addr && h.cpu.r[LR] % 4 == 0
    requires var t := Call(Lifted(src), env, fuel, addr, h);
             t.out == Return && ImageDisciplined(src, before, stale, t.visits)
    ensures var t := Call(Lifted(src), env, fuel, addr, h);
            && Run(code, env, n, s) == Some(s1) && s1.pc == h.cpu.r[LR]
            && Agree(t.host, s1, StaleAtEnd(src, stale, t.visits))
  {
    hide Run, Call, SourceOk, Lifted, StaleAtEnd, Disciplined, ImageDisciplined, Dumped, Agree;
    var t := Call(Lifted(src), env, fuel, addr, h);
    ImageRun(src, code, before, stale, t.visits);
    n, s1 := SimCall(src, code, env, fuel, addr, h, s, stale);
  }
}
