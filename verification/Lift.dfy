/** What the lifter emits for a function, as functions of the decoded code. */
module Lift {
  import opened Words
  import opened Shifts
  import opened Guest
  import opened Wrappers
  import opened Arm
  import opened CCode
  import opened Segments

  /** A function as extracted: its byte range, instruction heads and decoder output. */
  datatype Fn = Fn(start: Word, end: Word, size: nat, heads: seq<Word>, disasm: map<Word, Ins>)

  datatype Item = Item(addr: Word, ins: Ins)

  /** The context one function is lifted in. */
  datatype Context = Context(
    segs: seq<Segment>,
    heads: set<Word>,                            // decoded addresses: possible goto targets
    callContinue: set<Word>,                     // bx addresses that are calls
    tables: map<Word, JumpTable>)                // ldr pc addresses lowered to a switch

  datatype JumpTable = JumpTable(idx: RegNo, targets: seq<Word>)

  // ---- operands ----

  /** A register operand; the program counter becomes a constant. */
  function RegE(n: RegNo, pc: Word): Expr {
    if n == PC then EConst(Wrap(pc + 8)) else EReg(n)
  }

  function SrcE(o: Operand, pc: Word): Option<Expr> {
    match o
    case Imm(imm8, rot) => Some(EConst(Shifted(Ror, imm8, 2 * rot)))
    case Reg(rm) => Some(RegE(rm, pc))
    case ShiftImm(rm, kind, amount) => Some(ShiftE(kind, RegE(rm, pc), amount))
    case ShiftReg(rm, kind, rs) => Some(EAmount(kind, RegE(rm, pc), RegE(rs, pc)))
    case Rrx(_) => None
  }

  function ShiftE(kind: ShiftKind, e: Expr, amount: nat): Expr {
    if amount == 0 then e else EShift(kind, e, amount)
  }

  // ---- data processing ----

  function WithNZ(dst: Expr, e: Expr, s: bool): seq<Stmt> {
    [SAssign(dst, e)] + if s then [SSetNZ(dst)] else []
  }

  function LogicalE(op: DpOp, a: Expr, b: Expr): Expr
    requires IsLogical(op)
  {
    if op == MOV then b
    else if op == MVN then ENot(b)
    else if op == ORR then EBin(COr, a, b)
    else if op == EOR || op == TEQ then EBin(CXor, a, b)
    else if op == BIC then EBin(CAnd, a, ENot(b))
    else EBin(CAnd, a, b)
  }

  function DpBody(op: DpOp, s: bool, rd: RegNo, rn: RegNo, src: Operand, pc: Word): Option<seq<Stmt>> {
    var dst, a := RegE(rd, pc), RegE(rn, pc);
    match SrcE(src, pc)
    case None => None
    case Some(b) =>
      if op == TST || op == TEQ then Some([SSetNZ(LogicalE(op, a, b))])
      else if IsLogical(op) then Some(WithNZ(dst, LogicalE(op, a, b), s))
      else
        match op
        case ADD => Some([if s then SAddFlags(Some(dst), a, b) else SAssign(dst, EBin(CAdd, a, b))])
        case SUB => Some([if s then SSubFlags(Some(dst), a, b) else SAssign(dst, EBin(CSub, a, b))])
        case RSB => Some([if s then SSubFlags(Some(dst), b, a) else SAssign(dst, EBin(CSub, b, a))])
        case CMP => Some([SSubFlags(None, a, b)])
        case CMN => Some([SAddFlags(None, a, b)])
        case _ => None
  }

  // ---- loads and stores ----

  /** e + d, with the sign of d rendered as an operator. */
  function PlusE(e: Expr, d: int): Expr {
    if d >= 0 then EBin(CAdd, e, EConst(Wrap(d))) else EBin(CSub, e, EConst(Wrap(-d)))
  }

  function OffsetE(b: Expr, off: Offset, pc: Word): Expr {
    match off
    case ByImm(disp) => if disp == 0 then b else PlusE(b, disp)
    case ByReg(sub, rm, kind, amount) =>
      EBin(if sub then CSub else CAdd, b, ShiftE(kind, RegE(rm, pc), amount))
  }

  /** Base update of a post-indexed access; a shift on the offset register is dropped. */
  function PostE(b: Expr, off: Offset, pc: Word): Expr {
    match off
    case ByImm(disp) => PlusE(b, disp)
    case ByReg(sub, rm, _, _) => EBin(if sub then CSub else CAdd, b, RegE(rm, pc))
  }

  function AccessE(rn: RegNo, off: Offset, ix: Index, pc: Word): Expr {
    if ix == PostIndex then RegE(rn, pc) else OffsetE(RegE(rn, pc), off, pc)
  }

  function Update(rn: RegNo, off: Offset, ix: Index, pc: Word): seq<Stmt> {
    var b := RegE(rn, pc);
    match ix
    case Plain => []
    case PreIndex => [SAssign(b, OffsetE(b, off, pc))]
    case PostIndex => [SAssign(b, PostE(b, off, pc))]
  }

  /** Address of a PC-relative literal load, the only kind that is folded. */
  function LiteralAddr(op: Op, pc: Word): Option<int> {
    if op.Load? && op.size == Word4 && op.rn == PC && op.off.ByImm? && op.rd != PC
    then Some(pc + 8 + if op.ix == PostIndex then 0 else op.off.disp)
    else None
  }

  function Literal(op: Op, pc: Word, segs: seq<Segment>): Option<Word> {
    match LiteralAddr(op, pc)
    case None => None
    case Some(a) => ReadWord(segs, a)
  }

  function LoadBody(op: Op, pc: Word, segs: seq<Segment>): seq<Stmt>
    requires op.Load?
  {
    var access := AccessE(op.rn, op.off, op.ix, pc);
    var update := Update(op.rn, op.off, op.ix, pc);
    match Literal(op, pc, segs)
    case Some(v) => [SAssign(RegE(op.rd, pc), EConst(v))]
    case None =>
      if op.rd == PC then update + [SCall(ELoad(op.size, false, access)), SReturn]
      else [SAssign(RegE(op.rd, pc), ELoad(op.size, op.signed, access))] + update
  }

  function StoreBody(op: Op, pc: Word): seq<Stmt>
    requires op.Store?
  {
    [SStore(op.size, AccessE(op.rn, op.off, op.ix, pc), RegE(op.rd, pc))] + Update(op.rn, op.off, op.ix, pc)
  }

  // ---- block transfer ----

  function PushStores(regs: seq<RegNo>, i: nat): seq<Stmt>
    requires i <= |regs|
  {
    if i == 0 then []
    else PushStores(regs, i - 1) + [SStore(Word4, EBin(CAdd, EReg(SP), EConst(Wrap(4 * (i - 1)))), EReg(regs[i - 1]))]
  }

  function PushBody(regs: seq<RegNo>): seq<Stmt> {
    [SAssign(EReg(SP), EBin(CSub, EReg(SP), EConst(Wrap(4 * |regs|))))] + PushStores(regs, |regs|)
  }

  function PopLoads(regs: seq<RegNo>, i: nat): seq<Stmt>
    requires i <= |regs|
  {
    if i == 0 then []
    else
      PopLoads(regs, i - 1) +
      if regs[i - 1] == PC then []
      else [SAssign(EReg(regs[i - 1]), ELoad(Word4, false, EBin(CAdd, EReg(SP), EConst(Wrap(4 * (i - 1))))))]
  }

  /** Everything of a pop but the return. */
  function PopMoves(regs: seq<RegNo>): seq<Stmt> {
    PopLoads(regs, |regs|) + [SAssign(EReg(SP), EBin(CAdd, EReg(SP), EConst(Wrap(4 * |regs|))))]
  }

  function PopBody(regs: seq<RegNo>): seq<Stmt> {
    PopMoves(regs) + if PC in regs then [SReturn] else []
  }

  /** Offset of the lowest word from the base. */
  function Low(mode: BlockMode, n: nat): int {
    match mode
    case IA => 0
    case IB => 4
    case DB => -4 * n
    case DA => -4 * n + 4
  }

  function BaseOffE(off: int): Expr {
    if off == 0 then EBase else PlusE(EBase, off)
  }

  function BlockMoves(load: bool, regs: seq<RegNo>, low: int, i: nat): seq<Stmt>
    requires i <= |regs|
  {
    if i == 0 then []
    else
      var a, n := BaseOffE(low + 4 * (i - 1)), regs[i - 1];
      BlockMoves(load, regs, low, i - 1) +
      if load then (if n == PC then [] else [SAssign(EReg(n), ELoad(Word4, false, a))])
      else [SStore(Word4, a, EReg(n))]
  }

  function BlockUpdate(mode: BlockMode, rn: RegNo, wb: bool, n: nat, pc: Word): seq<Stmt> {
    if wb then [SAssign(RegE(rn, pc), EBin(if Low(mode, n) >= 0 then CAdd else CSub, EBase, EConst(Wrap(4 * n))))]
    else []
  }

  /** Everything of a block transfer but the return. */
  function BlockStraight(load: bool, mode: BlockMode, rn: RegNo, wb: bool, regs: seq<RegNo>, pc: Word): seq<Stmt> {
    [SBase(RegE(rn, pc))]
    + BlockMoves(load, regs, Low(mode, |regs|), |regs|)
    + BlockUpdate(mode, rn, wb, |regs|, pc)
  }

  function BlockBody(load: bool, mode: BlockMode, rn: RegNo, wb: bool, regs: seq<RegNo>, pc: Word): seq<Stmt> {
    BlockStraight(load, mode, rn, wb, regs, pc) + if load && PC in regs then [SReturn] else []
  }

  // ---- one instruction ----

  /** `_body`: the statements for everything that is not a branch, or None for a stub. */
  function Body(op: Op, pc: Word, segs: seq<Segment>): Option<seq<Stmt>>
    requires !(op.B? || op.Bl? || op.Bx? || op.BlxReg?)
  {
    match op
    case Dp(o, s, rd, rn, src) => DpBody(o, s, rd, rn, src, pc)
    case Mul(s, rd, rm, rs) => Some(WithNZ(RegE(rd, pc), EBin(CMul, RegE(rm, pc), RegE(rs, pc)), s))
    case Mla(s, rd, rm, rs, rn) =>
      Some(WithNZ(RegE(rd, pc), EBin(CAdd, EBin(CMul, RegE(rm, pc), RegE(rs, pc)), RegE(rn, pc)), s))
    case MulLong(signed, acc, _, lo, hi, rm, rs) =>
      Some([SMulLong(signed, acc, RegE(lo, pc), RegE(hi, pc), RegE(rm, pc), RegE(rs, pc))])
    case Load(_, _, _, _, _, _) => Some(LoadBody(op, pc, segs))
    case Store(_, _, _, _, _) => Some(StoreBody(op, pc))
    case Push(regs) => Some(PushBody(Ascending(regs)))
    case Pop(regs) => Some(PopBody(Ascending(regs)))
    case Block(load, mode, rn, wb, regs) => Some(BlockBody(load, mode, rn, wb, Ascending(regs), pc))
  }

  /** A body is never the stub statement. */
  lemma BodyNotStub(op: Op, pc: Word, segs: seq<Segment>)
    requires !(op.B? || op.Bl? || op.Bx? || op.BlxReg?) && Body(op, pc, segs).Some?
    ensures Body(op, pc, segs).value != [SUnimplemented]
  {
    var body := Body(op, pc, segs).value;
    if op.Pop? {
      var moves := PopMoves(Ascending(op.regs));
      assert moves[|moves| - 1].SAssign?;
      assert body[|moves| - 1] == moves[|moves| - 1];
    } else if op.Load? && op.rd == PC && Literal(op, pc, segs).None? {
      assert body[|body| - 1] == SReturn;
    } else {
      assert !body[0].SUnimplemented?;
    }
  }

  function GuardOf(cond: Cond): Option<Cond> {
    if cond == AL then None else Some(cond)
  }

  /** `emit`: the unlabelled line for one instruction. */
  function Emit(item: Item, next: Word, cx: Context): Line {
    var pc, op := item.addr, item.ins.op;
    var guard := GuardOf(item.ins.cond);
    match op
    case Bl(target) => Line(None, guard, [SAssign(EReg(LR), EConst(next)), SCall(EConst(target))])
    case BlxReg(rm) => Line(None, guard, [SAssign(EReg(LR), EConst(next)), SCall(RegE(rm, pc))])
    case Bx(rm) =>
      Line(None, guard,
           if rm == LR then [SReturn]
           else if pc in cx.callContinue then [SCall(RegE(rm, pc))]
           else [SCall(RegE(rm, pc)), SReturn])
    case B(target) =>
      Line(None, guard, if target in cx.heads then [SGoto(target)] else [SCall(EConst(target)), SReturn])
    case _ =>
      if pc in cx.tables then Line(None, guard, [SSwitch(cx.tables[pc].idx, cx.tables[pc].targets)])
      else
        match Body(op, pc, cx.segs)
        case Some(body) => Line(None, guard, body)
        case None => Line(None, None, [SUnimplemented])
  }

  // ---- the whole function ----

  function HeadsOf(fn: Fn): seq<Word> {
    if fn.heads != [] then fn.heads
    else seq((fn.size + 3) / 4, k requires 0 <= k => Wrap(fn.start + 4 * k))
  }

  predicate IsItem(fn: Fn, head: Word) {
    fn.start <= head < fn.start + fn.size && head in fn.disasm
  }

  /** The decodable heads inside the function's bytes, in order. */
  function DecodedFrom(fn: Fn, heads: seq<Word>, n: nat): seq<Item>
    requires n <= |heads|
  {
    if n == 0 then []
    else
      DecodedFrom(fn, heads, n - 1) +
      if IsItem(fn, heads[n - 1]) then [Item(heads[n - 1], fn.disasm[heads[n - 1]])] else []
  }

  function Decoded(fn: Fn): seq<Item> {
    DecodedFrom(fn, HeadsOf(fn), |HeadsOf(fn)|)
  }

  function HeadSet(d: seq<Item>): set<Word> {
    set x | x in d :: x.addr
  }

  /** `mov lr, pc`, whatever its condition. */
  predicate IsMovLrPc(ins: Ins) {
    ins.op.Dp? && ins.op.op == MOV && !ins.op.s && ins.op.rd == LR && ins.op.src == Reg(PC)
  }

  predicate IsBranchReg(ins: Ins) {
    ins.op.Bx? || ins.op.BlxReg?
  }

  predicate IsIdiom(d: seq<Item>, i: nat) {
    1 <= i < |d| && IsMovLrPc(d[i - 1].ins) && IsBranchReg(d[i].ins)
  }

  function CallContinue(d: seq<Item>): set<Word> {
    set i | 0 <= i < |d| && IsIdiom(d, i) :: d[i].addr
  }

  /** `ldr pc, [pc, rN ...]`. */
  predicate IsTableLoad(ins: Ins) {
    ins.op.Load? && ins.op.size == Word4 && ins.op.rd == PC && ins.op.rn == PC
    && ins.op.off.ByReg? && ins.op.ix != PostIndex
  }

  /** Consecutive table words from entry k on that are local instruction addresses. */
  function TableFrom(segs: seq<Segment>, tbl: int, heads: set<Word>, k: nat): (t: seq<Word>)
    requires k <= 256
    ensures |t| <= 256 - k
    ensures forall i :: 0 <= i < |t| ==> t[i] in heads && ReadWord(segs, tbl + 4 * (k + i)) == Some(t[i])
    ensures k + |t| < 256 ==>
              match ReadWord(segs, tbl + 4 * (k + |t|)) { case None => true case Some(w) => w !in heads }
    decreases 256 - k
  {
    if k == 256 then []
    else
      match ReadWord(segs, tbl + 4 * k)
      case None => []
      case Some(w) =>
        if w !in heads then []
        else
          var rest := TableFrom(segs, tbl, heads, k + 1);
          assert forall i :: 1 <= i < |rest| + 1 ==> ([w] + rest)[i] == rest[i - 1];
          [w] + rest
  }

  function TableOf(segs: seq<Segment>, heads: set<Word>, item: Item): seq<Word> {
    if IsTableLoad(item.ins) then TableFrom(segs, item.addr + 8, heads, 0) else []
  }

  lemma BranchNoTable(segs: seq<Segment>, heads: set<Word>, item: Item)
    requires item.ins.op.B?
    ensures TableOf(segs, heads, item) == []
  {
  }

  lemma TableIndex(ins: Ins)
    requires IsTableLoad(ins)
    ensures ins.op.Load? && ins.op.off.ByReg?
  {
  }

  function TablesFrom(segs: seq<Segment>, heads: set<Word>, d: seq<Item>, n: nat): map<Word, JumpTable>
    requires n <= |d|
  {
    if n == 0 then map[]
    else
      var rest := TablesFrom(segs, heads, d, n - 1);
      var t := TableOf(segs, heads, d[n - 1]);
      if t == [] then rest else rest[d[n - 1].addr := JumpTable(d[n - 1].ins.op.off.rm, t)]
  }

  function ContextOf(segs: seq<Segment>, d: seq<Item>): Context {
    Context(segs, HeadSet(d), CallContinue(d), TablesFrom(segs, HeadSet(d), d, |d|))
  }

  lemma ContextIs(segs: seq<Segment>, d: seq<Item>)
    ensures ContextOf(segs, d) == Context(segs, HeadSet(d), CallContinue(d), TablesFrom(segs, HeadSet(d), d, |d|))
  {
  }

  /** What one instruction makes a label: a local branch target, or jump-table entries. */
  function NewLabels(segs: seq<Segment>, heads: set<Word>, item: Item): set<Word> {
    if item.ins.op.B? then (if item.ins.op.target in heads then {item.ins.op.target} else {})
    else set t | t in TableOf(segs, heads, item)
  }

  function LabelsTo(segs: seq<Segment>, d: seq<Item>, n: nat): set<Word>
    requires n <= |d|
  {
    if n == 0 then {} else LabelsTo(segs, d, n - 1) + NewLabels(segs, HeadSet(d), d[n - 1])
  }

  function Labels(segs: seq<Segment>, d: seq<Item>): set<Word> {
    LabelsTo(segs, d, |d|)
  }

  lemma {:induction false} LabelIntro(segs: seq<Segment>, d: seq<Item>, n: nat, i: nat, a: Word)
    requires i < n <= |d| && a in NewLabels(segs, HeadSet(d), d[i])
    ensures a in LabelsTo(segs, d, n)
  {
    hide NewLabels, HeadSet;
    if i < n - 1 {
      LabelIntro(segs, d, n - 1, i, a);
    }
  }

  lemma {:induction false} LabelsLocal(segs: seq<Segment>, d: seq<Item>, n: nat)
    requires n <= |d|
    ensures LabelsTo(segs, d, n) <= HeadSet(d)
  {
    hide TableFrom, HeadSet;
    if n > 0 {
      LabelsLocal(segs, d, n - 1);
      assert forall t :: t in TableOf(segs, HeadSet(d), d[n - 1]) ==> t in HeadSet(d);
    }
  }

  function NextAddr(fn: Fn, d: seq<Item>, i: nat): Word {
    if i + 1 < |d| then d[i + 1].addr else fn.end
  }

  function LineAt(segs: seq<Segment>, fn: Fn, i: nat): Line
    requires i < |Decoded(fn)|
  {
    var d := Decoded(fn);
    var mark := if d[i].addr in Labels(segs, d) then Some(d[i].addr) else None;
    Emit(d[i], NextAddr(fn, d, i), ContextOf(segs, d)).(mark := mark)
  }

  /** `lift_func`. */
  function LiftFunc(segs: seq<Segment>, fn: Fn): seq<Line> {
    seq(|Decoded(fn)|, i requires 0 <= i < |Decoded(fn)| => LineAt(segs, fn, i))
  }

  /** How many lines are stubs. */
  function Stubs(lines: seq<Line>): nat {
    if lines == [] then 0
    else Stubs(lines[..|lines| - 1]) + if lines[|lines| - 1].body == [SUnimplemented] then 1 else 0
  }
}
