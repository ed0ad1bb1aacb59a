/** The flat ARM machine: decoded ARMv4 instructions over registers, NZCV and
    byte memory (ARM Architecture Reference Manual, DDI 0100, A2.4-A5.4). */
module Arm {
  import opened Words
  import opened Shifts
  import opened Guest
  import opened Machine
  import opened Wrappers

  type RegNo = n: int | 0 <= n < 16
  type Nibble = n: int | 0 <= n < 16

  /** Shifter operand; Imm is an 8-bit value rotated right by twice rot. */
  datatype Operand =
    | Imm(imm8: Byte, rot: Nibble)
    | Reg(rm: RegNo)
    | ShiftImm(rm: RegNo, kind: ShiftKind, amount: nat)
    | ShiftReg(rm: RegNo, kind: ShiftKind, rs: RegNo)
    | Rrx(rm: RegNo)

  datatype DpOp =
    | MOV | MVN | ADD | SUB | RSB | AND | ORR | EOR | BIC | CMP | CMN | TST | TEQ | ADC | SBC | RSC

  datatype Size = Byte1 | Half2 | Word4

  /** Address offset: a displacement, or a register with a constant shift. */
  datatype Offset = ByImm(disp: int) | ByReg(sub: bool, rm: RegNo, kind: ShiftKind, amount: nat)

  datatype Index = Plain | PreIndex | PostIndex

  datatype BlockMode = IA | IB | DA | DB

  datatype Op =
    | Dp(op: DpOp, s: bool, rd: RegNo, rn: RegNo, src: Operand)
    | Mul(s: bool, rd: RegNo, rm: RegNo, rs: RegNo)
    | Mla(s: bool, rd: RegNo, rm: RegNo, rs: RegNo, rn: RegNo)
    | MulLong(signed: bool, acc: bool, s: bool, lo: RegNo, hi: RegNo, rm: RegNo, rs: RegNo)
    | Load(size: Size, signed: bool, rd: RegNo, rn: RegNo, off: Offset, ix: Index)
    | Store(size: Size, rd: RegNo, rn: RegNo, off: Offset, ix: Index)
    | Push(regs: set<RegNo>)
    | Pop(regs: set<RegNo>)
    | Block(load: bool, mode: BlockMode, rn: RegNo, wb: bool, regs: set<RegNo>)
    | B(target: Word)
    | Bl(target: Word)
    | Bx(rm: RegNo)
    | BlxReg(rm: RegNo)

  datatype Ins = Ins(cond: Cond, op: Op)

  datatype State = State(cpu: Cpu, pc: Word, log: seq<Event>)

  // ---- conditions (A3.2) ----

  predicate Passes(cond: Cond, f: Psr) {
    match cond
    case EQ => f.z
    case NE => !f.z
    case HS => f.c
    case LO => !f.c
    case MI => f.n
    case PL => !f.n
    case VS => f.v
    case VC => !f.v
    case HI => f.c && !f.z
    case LS => !(f.c && !f.z)
    case GE => f.n == f.v
    case LT => !(f.n == f.v)
    case GT => !f.z && f.n == f.v
    case LE => !(!f.z && f.n == f.v)
    case AL => true
  }

  // ---- operands ----

  /** Register read; the program counter reads as the instruction address plus 8 (A2.4). */
  function RegVal(pc: Word, r: Regs, n: RegNo): Word {
    if n == PC then Wrap(pc + 8) else r[n]
  }

  datatype Shifter = Shifter(value: Word, carry: bool)

  function ShiftBy(kind: ShiftKind, x: Word, n: nat, carry: bool): Shifter {
    Shifter(Shifted(kind, x, n), CarryOut(kind, x, n, carry))
  }

  /** Addressing mode 1 (A5.1). */
  function ShifterOperand(o: Operand, pc: Word, r: Regs, carry: bool): Shifter {
    match o
    case Imm(imm8, rot) => ShiftBy(Ror, imm8, 2 * rot, carry)
    case Reg(rm) => Shifter(RegVal(pc, r, rm), carry)
    case ShiftImm(rm, kind, amount) => ShiftBy(kind, RegVal(pc, r, rm), amount, carry)
    case ShiftReg(rm, kind, rs) => ShiftBy(kind, RegVal(pc, r, rm), RegVal(pc, r, rs) % 0x100, carry)
    case Rrx(rm) =>
      var x := RegVal(pc, r, rm);
      Shifter(x / 2 + (if carry then 0x8000_0000 else 0), x % 2 == 1)
  }

  // ---- data processing (A4.1) ----

  predicate IsLogical(op: DpOp) {
    op.MOV? || op.MVN? || op.AND? || op.ORR? || op.EOR? || op.BIC? || op.TST? || op.TEQ?
  }

  predicate IsTest(op: DpOp) {
    op.CMP? || op.CMN? || op.TST? || op.TEQ?
  }

  function LogicalResult(op: DpOp, x: Word, y: Word): Word
    requires IsLogical(op)
  {
    match op
    case MOV => y
    case MVN => Not(y)
    case ORR => Bitwise(BitOr, x, y)
    case EOR => Bitwise(BitXor, x, y)
    case TEQ => Bitwise(BitXor, x, y)
    case BIC => Bitwise(BitAnd, x, Not(y))
    case _ => Bitwise(BitAnd, x, y)
  }

  function NZ(f: Psr, res: Word): Psr {
    f.(n := res >= 0x8000_0000, z := res == 0)
  }

  datatype Sum = Sum(res: Word, flags: Psr)

  /** x + y + cin: carry out of the unsigned sum, overflow of the signed sum. */
  function AddWithCarry(f: Psr, x: Word, y: Word, cin: nat): Sum {
    var res := Wrap(x + y + cin);
    Sum(res, NZ(f, res).(c := x + y + cin >= 0x1_0000_0000,
                         v := !(-0x8000_0000 <= Signed(x) + Signed(y) + cin < 0x8000_0000)))
  }

  /** x - y - borrow: C is NOT borrow. */
  function Subtract(f: Psr, x: Word, y: Word, borrow: nat): Sum {
    var res := Wrap(x - y - borrow);
    Sum(res, NZ(f, res).(c := x >= y + borrow,
                         v := !(-0x8000_0000 <= Signed(x) - Signed(y) - borrow < 0x8000_0000)))
  }

  function Arithmetic(op: DpOp, f: Psr, x: Word, y: Word): Sum
    requires !IsLogical(op)
  {
    var carry := if f.c then 1 else 0;
    if op == ADD || op == CMN then AddWithCarry(f, x, y, 0)
    else if op == ADC then AddWithCarry(f, x, y, carry)
    else if op == RSB then Subtract(f, y, x, 0)
    else if op == SBC then Subtract(f, x, y, 1 - carry)
    else if op == RSC then Subtract(f, y, x, 1 - carry)
    else Subtract(f, x, y, 0)
  }

  function DpResult(op: DpOp, f: Psr, x: Word, y: Shifter): Sum {
    if IsLogical(op) then
      var res := LogicalResult(op, x, y.value);
      Sum(res, NZ(f, res).(c := y.carry))
    else
      Arithmetic(op, f, x, y.value)
  }

  // ---- multiplication ----

  function MulRes(x: Word, y: Word, acc: Word): Word {
    Wrap((x as int) * (y as int) + acc)
  }

  function Product64(signed: bool, x: Word, y: Word): (p: int)
    ensures 0 <= p < 0x1_0000_0000_0000_0000
  {
    (if signed then Signed(x) * Signed(y) else x * y) % 0x1_0000_0000_0000_0000
  }

  // ---- addresses ----

  function OffsetVal(off: Offset, pc: Word, r: Regs): int {
    match off
    case ByImm(disp) => disp
    case ByReg(sub, rm, kind, amount) =>
      var x: int := Shifted(kind, RegVal(pc, r, rm), amount);
      if sub then -x else x
  }

  /** The base register moved by the offset (modes 2 and 3, A5.2 and A5.3). */
  function Moved(rn: RegNo, off: Offset, pc: Word, r: Regs): Word {
    Wrap(RegVal(pc, r, rn) + OffsetVal(off, pc, r))
  }

  function AccessAddr(rn: RegNo, off: Offset, ix: Index, pc: Word, r: Regs): Word {
    if ix == PostIndex then RegVal(pc, r, rn) else Moved(rn, off, pc, r)
  }

  function Bytes(size: Size): nat {
    match size
    case Byte1 => 1
    case Half2 => 2
    case Word4 => 4
  }

  function LoadVal(m: Mem, size: Size, signed: bool, a: Word): Word {
    match size
    case Byte1 => var b := R8(m, a); if signed && b >= 0x80 then Wrap(b - 0x100) else b
    case Half2 => var h := R16(m, a); if signed && h >= 0x8000 then Wrap(h - 0x1_0000) else h
    case Word4 => R32(m, a)
  }

  function StoreVal(m: Mem, size: Size, a: Word, v: Word): Mem {
    match size
    case Byte1 => W8(m, a, v)
    case Half2 => W16(m, a, v)
    case Word4 => W32(m, a, v)
  }

  // ---- block transfer (mode 4, A5.4) ----

  /** The listed registers below i, in ascending order. */
  function Below(regs: set<RegNo>, i: nat): (s: seq<RegNo>)
    requires i <= 16
    ensures |s| <= i
    ensures forall k :: 0 <= k < |s| ==> s[k] in regs && s[k] < i
  {
    if i == 0 then []
    else Below(regs, i - 1) + (if i - 1 in regs then [i - 1] else [])
  }

  function Ascending(regs: set<RegNo>): (s: seq<RegNo>)
    ensures |s| <= 16
    ensures forall k :: 0 <= k < |s| ==> s[k] in regs
  {
    Below(regs, 16)
  }

  function Count(regs: set<RegNo>): nat {
    |Ascending(regs)|
  }

  /** How many listed registers precede i: its place in the block. */
  function Rank(regs: set<RegNo>, i: RegNo): nat {
    |Below(regs, i)|
  }

  /** Lowest address of the block. */
  function BlockStart(mode: BlockMode, base: Word, n: nat): Word {
    match mode
    case IA => base
    case IB => Wrap(base + 4)
    case DA => Wrap(base - 4 * n + 4)
    case DB => Wrap(base - 4 * n)
  }

  function BlockBase(mode: BlockMode, base: Word, n: nat): Word {
    if mode == IA || mode == IB then Wrap(base + 4 * n) else Wrap(base - 4 * n)
  }

  /** All loads at once: each listed register from the word at its rank. */
  function LoadBlock(m: Mem, start: Word, regs: set<RegNo>, r: Regs): Regs {
    seq(16, i requires 0 <= i < 16 =>
      if i in regs && i != PC then R32(m, Wrap(start + 4 * Rank(regs, i))) else r[i])
  }

  function BlockByte(m: Mem, start: Word, regs: set<RegNo>, r: Regs, x: nat): Byte
    requires x < |m|
  {
    var k := Wrap(x - start);
    if k / 4 < Count(regs) then ByteOf(r[Ascending(regs)[k / 4]], k % 4) else m[x]
  }

  /** All stores at once: each byte of the block from the register whose rank covers it. */
  function StoreBlock(m: Mem, start: Word, regs: set<RegNo>, r: Regs): Mem {
    seq(|m|, x requires 0 <= x < |m| => BlockByte(m, start, regs, r, x))
  }

  predicate BlockAccessOk(m: Mem, start: Word, n: nat) {
    start % 4 == 0 && forall k :: 0 <= k < n ==> InWindow(m, Wrap(start + 4 * k), 4)
  }

  // ---- what the architecture leaves UNPREDICTABLE, or, for a store of pc, to the implementation ----

  predicate Predictable(op: Op) {
    match op
    case Dp(_, _, rd, rn, src) =>
      src.ShiftReg? ==> rd != PC && rn != PC && src.rm != PC && src.rs != PC
    case Mul(_, rd, rm, rs) => rd != PC && rm != PC && rs != PC && rd != rm
    case Mla(_, rd, rm, rs, rn) => rd != PC && rm != PC && rs != PC && rn != PC && rd != rm
    case MulLong(_, _, _, lo, hi, rm, rs) =>
      lo != PC && hi != PC && rm != PC && rs != PC && lo != hi && lo != rm && hi != rm
    case Load(size, _, rd, rn, off, ix) =>
      && (size != Word4 ==> rd != PC)
      && (off.ByReg? ==> off.rm != PC)
      && (ix != Plain ==> rn != PC && rn != rd && (off.ByReg? ==> off.rm != rn))
    case Store(_, rd, rn, off, ix) =>
      && rd != PC
      && (off.ByReg? ==> off.rm != PC)
      && (ix != Plain ==> rn != PC && rn != rd && (off.ByReg? ==> off.rm != rn))
    case Push(regs) => regs != {} && PC !in regs && (SP in regs ==> Rank(regs, SP) == 0)
    case Pop(regs) => regs != {} && SP !in regs
    case Block(load, _, rn, wb, regs) =>
      && regs != {} && rn != PC && (!load ==> PC !in regs)
      && (wb && rn in regs ==> !load && Rank(regs, rn) == 0)
    case BlxReg(rm) => rm != PC
    case _ => true
  }

  /** Every access is aligned and inside the guest window. */
  predicate AccessOk(op: Op, pc: Word, r: Regs, m: Mem) {
    match op
    case Load(size, _, _, rn, off, ix) =>
      var a := AccessAddr(rn, off, ix, pc, r);
      a % Bytes(size) == 0 && InWindow(m, a, Bytes(size))
    case Store(size, _, rn, off, ix) =>
      var a := AccessAddr(rn, off, ix, pc, r);
      a % Bytes(size) == 0 && InWindow(m, a, Bytes(size))
    case Push(regs) => BlockAccessOk(m, BlockStart(DB, r[SP], Count(regs)), Count(regs))
    case Pop(regs) => BlockAccessOk(m, r[SP], Count(regs))
    case Block(_, mode, rn, _, regs) =>
      rn != PC && BlockAccessOk(m, BlockStart(mode, r[rn], Count(regs)), Count(regs))
    case _ => true
  }

  // ---- execution ----

  function Set(r: Regs, n: RegNo, v: Word): Regs {
    r[n := v]
  }

  function Straight(s: State, cpu: Cpu): Option<State> {
    Some(s.(cpu := cpu, pc := Wrap(s.pc + 4)))
  }

  /** Branch-and-exchange; a target that is not word-aligned leaves ARM state. */
  function BranchTo(s: State, target: Word): Option<State> {
    if target % 4 == 0 then Some(s.(pc := target)) else None
  }

  function ExecBlock(s: State, load: bool, mode: BlockMode, rn: RegNo, wb: bool, regs: set<RegNo>): Option<State>
    requires rn != PC
  {
    var n, base := Count(regs), s.cpu.r[rn];
    var start := BlockStart(mode, base, n);
    var r := if load then LoadBlock(s.cpu.mem, start, regs, s.cpu.r) else s.cpu.r;
    var cpu := s.cpu.(r := if wb then Set(r, rn, BlockBase(mode, base, n)) else r,
                      mem := if load then s.cpu.mem else StoreBlock(s.cpu.mem, start, regs, s.cpu.r));
    if load && PC in regs then
      var v := R32(s.cpu.mem, Wrap(start + 4 * Rank(regs, PC)));
      Some(s.(cpu := cpu, pc := v - v % 4))
    else
      Straight(s, cpu)
  }

  function ExecDp(s: State, op: DpOp, setFlags: bool, rd: RegNo, rn: RegNo, src: Operand): Option<State> {
    var y := ShifterOperand(src, s.pc, s.cpu.r, s.cpu.cpsr.c);
    var sum := DpResult(op, s.cpu.cpsr, RegVal(s.pc, s.cpu.r, rn), y);
    if IsTest(op) then Straight(s, s.cpu.(cpsr := sum.flags))
    else if rd == PC then None
    else Straight(s, s.cpu.(r := Set(s.cpu.r, rd, sum.res),
                            cpsr := if setFlags then sum.flags else s.cpu.cpsr))
  }

  /** Multiplication; S leaves C UNPREDICTABLE in ARMv4, so the environment picks it. */
  function ExecMul(s: State, env: Env, setFlags: bool, rd: RegNo, res: Word): Option<State> {
    var f := NZ(s.cpu.cpsr, res).(c := env.mulCarry(s.pc, s.cpu.r));
    Straight(s, s.cpu.(r := Set(s.cpu.r, rd, res), cpsr := if setFlags then f else s.cpu.cpsr))
  }

  /** Long multiplication; S leaves both C and V UNPREDICTABLE in ARMv4. */
  function ExecMulLong(s: State, env: Env, op: Op): Option<State>
    requires op.MulLong?
  {
    var r := s.cpu.r;
    var p := Product64(op.signed, r[op.rm], r[op.rs]);
    var lo := p % 0x1_0000_0000 + (if op.acc then r[op.lo] else 0);
    var hi := p / 0x1_0000_0000 + (if op.acc then r[op.hi] else 0) + lo / 0x1_0000_0000;
    var f := s.cpu.cpsr.(n := Wrap(hi) >= 0x8000_0000, z := Wrap(lo) == 0 && Wrap(hi) == 0,
                         c := env.mulCarry(s.pc, r), v := env.mulOverflow(s.pc, r));
    Straight(s, s.cpu.(r := Set(Set(r, op.lo, Wrap(lo)), op.hi, Wrap(hi)),
                       cpsr := if op.s then f else s.cpu.cpsr))
  }

  function ExecLoad(s: State, op: Op): Option<State>
    requires op.Load?
  {
    var r := s.cpu.r;
    var v := LoadVal(s.cpu.mem, op.size, op.signed, AccessAddr(op.rn, op.off, op.ix, s.pc, r));
    var r1 := if op.ix == Plain then r else Set(r, op.rn, Moved(op.rn, op.off, s.pc, r));
    if op.rd == PC then Some(s.(cpu := s.cpu.(r := r1), pc := v - v % 4))
    else Straight(s, s.cpu.(r := Set(r1, op.rd, v)))
  }

  function ExecStore(s: State, op: Op): Option<State>
    requires op.Store?
  {
    var r := s.cpu.r;
    var m := StoreVal(s.cpu.mem, op.size, AccessAddr(op.rn, op.off, op.ix, s.pc, r), RegVal(s.pc, r, op.rd));
    var r1 := if op.ix == Plain then r else Set(r, op.rn, Moved(op.rn, op.off, s.pc, r));
    Straight(s, s.cpu.(r := r1, mem := m))
  }

  function Exec(op: Op, env: Env, s: State): Option<State> {
    var r := s.cpu.r;
    if !Predictable(op) || !AccessOk(op, s.pc, r, s.cpu.mem) then None
    else
      match op
      case Dp(o, sf, rd, rn, src) => ExecDp(s, o, sf, rd, rn, src)
      case Mul(sf, rd, rm, rs) => ExecMul(s, env, sf, rd, MulRes(r[rm], r[rs], 0))
      case Mla(sf, rd, rm, rs, rn) => ExecMul(s, env, sf, rd, MulRes(r[rm], r[rs], r[rn]))
      case MulLong(_, _, _, _, _, _, _) => ExecMulLong(s, env, op)
      case Load(_, _, _, _, _, _) => ExecLoad(s, op)
      case Store(_, _, _, _, _) => ExecStore(s, op)
      case Push(regs) => ExecBlock(s, false, DB, SP, true, regs)
      case Pop(regs) => ExecBlock(s, true, IA, SP, true, regs)
      case Block(load, mode, rn, wb, regs) => ExecBlock(s, load, mode, rn, wb, regs)
      case B(target) => Some(s.(pc := target))
      case Bl(target) => Some(s.(cpu := s.cpu.(r := Set(r, LR, Wrap(s.pc + 4))), pc := target))
      case Bx(rm) => BranchTo(s, RegVal(s.pc, r, rm))
      case BlxReg(rm) => BranchTo(s.(cpu := s.cpu.(r := Set(r, LR, Wrap(s.pc + 4)))), r[rm])
  }

  // ---- the machine ----

  /** Code is the decoded text; exts are the addresses of functions outside it. */
  datatype Code = Code(text: map<Word, Ins>, exts: set<Word>)

  function CallExt(env: Env, s: State): Option<State> {
    match env.ext(s.log, s.pc, s.cpu.r, s.cpu.mem)
    case Left => None
    case Returned(r, mem) =>
      BranchTo(State(s.cpu.(r := r, mem := mem), s.pc, s.log + [Event(s.pc, s.cpu.r, s.cpu.mem)]), s.cpu.r[LR])
  }

  function Step(code: Code, env: Env, s: State): Option<State> {
    if s.pc in code.text then
      var ins := code.text[s.pc];
      if Passes(ins.cond, s.cpu.cpsr) then Exec(ins.op, env, s) else Some(s.(pc := Wrap(s.pc + 4)))
    else if s.pc in code.exts then CallExt(env, s)
    else None
  }

  function Run(code: Code, env: Env, n: nat, s: State): Option<State> {
    if n == 0 then Some(s)
    else
      match Step(code, env, s)
      case None => None
      case Some(s1) => Run(code, env, n - 1, s1)
  }

  lemma {:induction false} RunAdds(code: Code, env: Env, n: nat, k: nat, s: State, s1: State)
    requires Run(code, env, n, s) == Some(s1)
    ensures Run(code, env, n + k, s) == Run(code, env, k, s1)
  {
    if n > 0 {
      RunAdds(code, env, n - 1, k, Step(code, env, s).value, s1);
    }
  }
}
