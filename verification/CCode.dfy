/** The C the lifter emits, as a small statement language, and what a run of it
    does: host calls and returns, gotos local to one function. */
module CCode {
  import opened Words
  import opened Shifts
  import opened Guest
  import opened Machine
  import opened Wrappers
  import opened Arm

  datatype Expr =
    | EReg(n: RegNo)                       // c->r[n]
    | EConst(v: Word)
    | EBase                                // the block temporary _b
    | EBin(op: BinOp, a: Expr, b: Expr)
    | ENot(a: Expr)
    | EShift(kind: ShiftKind, a: Expr, k: nat)        // <<, >>, signed >> by a constant, or the or-ed rotate
    | EAmount(kind: ShiftKind, a: Expr, b: Expr)      // ngage_lsl, ngage_lsr, ngage_asr, ngage_ror
    | ELoad(size: Size, signed: bool, a: Expr)        // ngage_r32/16/8, with the sign-extending casts

  datatype BinOp = CAdd | CSub | CMul | CAnd | COr | CXor

  datatype Stmt =
    | SAssign(dst: Expr, e: Expr)
    | SAddFlags(res: Option<Expr>, a: Expr, b: Expr)  // [dst =] ngage_add_flags(c, a, b, 0)
    | SSubFlags(res: Option<Expr>, a: Expr, b: Expr)
    | SSetNZ(e: Expr)
    | SStore(size: Size, a: Expr, e: Expr)
    | SBase(e: Expr)                                  // uint32_t _b = e
    | SMulLong(signed: bool, acc: bool, lo: Expr, hi: Expr, a: Expr, b: Expr)
    | SCall(e: Expr)                                  // ngage_call(c, e)
    | SReturn
    | SGoto(target: Word)
    | SSwitch(idx: RegNo, targets: seq<Word>)         // case i: goto targets[i]
    | SUnimplemented

  /** One emitted line: an optional label, an optional condition, statements. */
  datatype Line = Line(mark: Option<Word>, guard: Option<Cond>, body: seq<Stmt>)

  /** The functions registered with the dispatch table, lifted or external. */
  datatype Program = Program(fns: map<Word, seq<Line>>, exts: set<Word>)

  /** A running C program: the context, the block temporary, the calls made outside. */
  datatype Host = Host(cpu: Cpu, base: Word, log: seq<Event>)

  // ---- expressions ----

  function Bin(op: BinOp, x: Word, y: Word): Word {
    match op
    case CAdd => Wrap(x + y)
    case CSub => Wrap(x - y)
    case CMul => MulRes(x, y, 0)
    case CAnd => Bitwise(BitAnd, x, y)
    case COr => Bitwise(BitOr, x, y)
    case CXor => Bitwise(BitXor, x, y)
  }

  /** C leaves a shift by 32 or more undefined; the value here is then arbitrary. */
  function CShift(kind: ShiftKind, x: Word, k: nat): Word {
    if 1 <= k <= 31 then ConstShift(kind, x, k) else 0
  }

  function Eval(e: Expr, h: Host): Word {
    match e
    case EReg(n) => h.cpu.r[n]
    case EConst(v) => v
    case EBase => h.base
    case EBin(op, a, b) => Bin(op, Eval(a, h), Eval(b, h))
    case ENot(a) => Not(Eval(a, h))
    case EShift(kind, a, k) => CShift(kind, Eval(a, h), k)
    case EAmount(kind, a, b) => AmountShift(kind, Eval(a, h), Eval(b, h))
    case ELoad(size, signed, a) => LoadVal(h.cpu.mem, size, signed, Eval(a, h))
  }

  // ---- statements without control flow ----

  /** Compiles: what is assigned to is a register. */
  predicate Compiles(s: Stmt) {
    match s
    case SAssign(dst, _) => dst.EReg?
    case SAddFlags(dst, _, _) => dst.Some? ==> dst.value.EReg?
    case SSubFlags(dst, _, _) => dst.Some? ==> dst.value.EReg?
    case SMulLong(_, _, lo, hi, _, _) => lo.EReg? && hi.EReg?
    case _ => true
  }

  predicate IsStraight(s: Stmt) {
    Compiles(s) && !(s.SCall? || s.SReturn? || s.SGoto? || s.SSwitch? || s.SUnimplemented?)
  }

  function SetReg(h: Host, n: RegNo, v: Word): Host {
    h.(cpu := h.cpu.(r := h.cpu.r[n := v]))
  }

  function SetPsr(h: Host, f: Psr): Host {
    h.(cpu := h.cpu.(cpsr := f))
  }

  function Assign(h: Host, dst: Option<Expr>, v: Word): Host
    requires dst.Some? ==> dst.value.EReg?
  {
    if dst.Some? then SetReg(h, dst.value.n, v) else h
  }

  /** The 64-bit product of a long multiplication, reduced to uint64_t. */
  function LongProduct(signed: bool, acc: bool, lo: Word, hi: Word, x: Word, y: Word): int {
    var p := if signed then Signed(x) * Signed(y) else (x as int) * (y as int);
    (p + (if acc then lo + 0x1_0000_0000 * hi else 0)) % 0x1_0000_0000_0000_0000
  }

  function Do(s: Stmt, h: Host): Host
    requires IsStraight(s)
  {
    match s
    case SAssign(dst, e) => SetReg(h, dst.n, Eval(e, h))
    case SAddFlags(dst, a, b) =>
      var x, y := Eval(a, h), Eval(b, h);
      Assign(SetPsr(h, AddFlags(h.cpu.cpsr, x, y, 0)), dst, Wrap(x + y))
    case SSubFlags(dst, a, b) =>
      var x, y := Eval(a, h), Eval(b, h);
      Assign(SetPsr(h, SubFlags(h.cpu.cpsr, x, y)), dst, Wrap(x - y))
    case SSetNZ(e) => SetPsr(h, SetNZ(h.cpu.cpsr, Eval(e, h)))
    case SStore(size, a, e) =>
      h.(cpu := h.cpu.(mem := StoreVal(h.cpu.mem, size, Eval(a, h), Eval(e, h))))
    case SBase(e) => h.(base := Eval(e, h))
    case SMulLong(signed, acc, lo, hi, a, b) =>
      var p := LongProduct(signed, acc, h.cpu.r[lo.n], h.cpu.r[hi.n], Eval(a, h), Eval(b, h));
      SetReg(SetReg(h, lo.n, p % 0x1_0000_0000), hi.n, p / 0x1_0000_0000)
  }

  // ---- runs ----

  /** How control leaves a statement, a line, or a function. */
  datatype Out = Next | Goto(target: Word) | Return | Stuck | NoFuel

  /** A line reached in a run: its function and position, the value lr had on
      entry to that function, the context before the line, and the calls made
      outside so far. */
  datatype Visit = Visit(fn: Word, line: nat, ret: Word, cpu: Cpu, log: seq<Event>)

  datatype Trace = Trace(out: Out, host: Host, visits: seq<Visit>)

  /** Position of the label in the function, or -1. */
  function FindLabel(lines: seq<Line>, target: Word): (i: int)
    ensures -1 <= i < |lines|
    ensures i >= 0 ==> lines[i].mark == Some(target)
    ensures i < 0 ==> forall k :: 0 <= k < |lines| ==> lines[k].mark != Some(target)
  {
    if lines == [] then -1
    else if lines[0].mark == Some(target) then 0
    else
      var i := FindLabel(lines[1..], target);
      assert forall k :: 1 <= k < |lines| ==> lines[k] == lines[1..][k - 1];
      if i < 0 then -1 else i + 1
  }

  /** ngage_call: run the lifted function, or call out, or report an unregistered address. */
  function Call(p: Program, env: Env, fuel: nat, addr: Word, h: Host): (t: Trace)
    ensures t.out == Return || t.out == Stuck || t.out == NoFuel
    decreases fuel, 0, 0
  {
    if addr in p.fns then
      if fuel == 0 then Trace(NoFuel, h, [])
      else RunLines(p, env, fuel - 1, addr, 0, h.cpu.r[LR], h)
    else if addr in p.exts then
      match env.ext(h.log, addr, h.cpu.r, h.cpu.mem)
      case Left => Trace(Stuck, h, [])
      case Returned(r, mem) =>
        Trace(Return, h.(cpu := h.cpu.(r := r, mem := mem),
                         log := h.log + [Event(addr, h.cpu.r, h.cpu.mem)]), [])
    else Trace(Stuck, h, [])
  }

  /** The statements of one line. */
  function RunBody(p: Program, env: Env, fuel: nat, body: seq<Stmt>, h: Host): Trace
    decreases fuel, 1, |body|
  {
    if body == [] then Trace(Next, h, [])
    else
      var s := body[0];
      if IsStraight(s) then RunBody(p, env, fuel, body[1..], Do(s, h))
      else if s.SReturn? then Trace(Return, h, [])
      else if s.SGoto? then Trace(Goto(s.target), h, [])
      else if s.SSwitch? && h.cpu.r[s.idx] < |s.targets| then Trace(Goto(s.targets[h.cpu.r[s.idx]]), h, [])
      else if s.SSwitch? then RunBody(p, env, fuel, body[1..], h)
      else if s.SCall? then
        var t := Call(p, env, fuel, Eval(s.e, h), h);
        if t.out != Return then t
        else
          var rest := RunBody(p, env, fuel, body[1..], t.host);
          rest.(visits := t.visits + rest.visits)
      else Trace(Stuck, h, [])
  }

  /** Function fn from line i on; running off the end returns. */
  function RunLines(p: Program, env: Env, fuel: nat, fn: Word, i: nat, ret: Word, h: Host): (t: Trace)
    requires fn in p.fns
    ensures t.out == Return || t.out == Stuck || t.out == NoFuel
    decreases fuel, 2, 0
  {
    var lines := p.fns[fn];
    if i >= |lines| then Trace(Return, h, [])
    else
      var t: Trace := RunLine(p, env, fuel, lines[i], h);
      var visits := [Visit(fn, i, ret, h.cpu, h.log)] + t.visits;
      var next := if t.out.Goto? then FindLabel(lines, t.out.target) else i + 1;
      if !t.out.Next? && !t.out.Goto? then t.(visits := visits)
      else if next < 0 then Trace(Stuck, t.host, visits)
      else if fuel == 0 then Trace(NoFuel, t.host, visits)
      else
        var rest := RunLines(p, env, fuel - 1, fn, next, ret, t.host);
        rest.(visits := visits + rest.visits)
  }

  function RunLine(p: Program, env: Env, fuel: nat, line: Line, h: Host): Trace
    decreases fuel, 1, |line.body| + 1
  {
    if line.guard.Some? && !CcTest(line.guard.value, h.cpu.cpsr) then Trace(Next, h, [])
    else RunBody(p, env, fuel, line.body, h)
  }

  /** What runs off the end of a function returns, with nothing else done. */
  lemma RunsOffEnd(p: Program, env: Env, fuel: nat, fn: Word, ret: Word, h: Host)
    requires fn in p.fns
    ensures RunLines(p, env, fuel, fn, |p.fns[fn]|, ret, h) == Trace(Return, h, [])
  {
  }

  /** A call of an address that is not registered reports it and ends the run. */
  lemma UnregisteredSticks(p: Program, env: Env, fuel: nat, addr: Word, h: Host)
    requires addr !in p.fns && addr !in p.exts
    ensures Call(p, env, fuel, addr, h) == Trace(Stuck, h, [])
  {
  }

  // ---- fuel ----

  /** A call that finished or stuck does the same with more fuel: fuel only bounds runs. */
  lemma {:induction false} CallMoreFuel(p: Program, env: Env, fuel: nat, more: nat, addr: Word, h: Host)
    requires fuel <= more && Call(p, env, fuel, addr, h).out != NoFuel
    ensures Call(p, env, more, addr, h) == Call(p, env, fuel, addr, h)
    decreases fuel, 0, 0
  {
    hide RunLines;
    if addr in p.fns {
      LinesMoreFuel(p, env, fuel - 1, more - 1, addr, 0, h.cpu.r[LR], h);
    }
  }

  lemma {:induction false} BodyMoreFuel(p: Program, env: Env, fuel: nat, more: nat, body: seq<Stmt>, h: Host)
    requires fuel <= more && RunBody(p, env, fuel, body, h).out != NoFuel
    ensures RunBody(p, env, more, body, h) == RunBody(p, env, fuel, body, h)
    decreases fuel, 1, |body|
  {
    hide Call, Do, IsStraight, Eval;
    if body != [] {
      var s := body[0];
      if IsStraight(s) {
        BodyMoreFuel(p, env, fuel, more, body[1..], Do(s, h));
      } else if s.SSwitch? && h.cpu.r[s.idx] >= |s.targets| {
        BodyMoreFuel(p, env, fuel, more, body[1..], h);
      } else if s.SCall? {
        CallMoreFuel(p, env, fuel, more, Eval(s.e, h), h);
        var t := Call(p, env, fuel, Eval(s.e, h), h);
        if t.out == Return {
          BodyMoreFuel(p, env, fuel, more, body[1..], t.host);
        }
      }
    }
  }

  lemma {:induction false} LinesMoreFuel(p: Program, env: Env, fuel: nat, more: nat, fn: Word, i: nat, ret: Word,
                                         h: Host)
    requires fuel <= more && fn in p.fns && RunLines(p, env, fuel, fn, i, ret, h).out != NoFuel
    ensures RunLines(p, env, more, fn, i, ret, h) == RunLines(p, env, fuel, fn, i, ret, h)
    decreases fuel, 2, 0
  {
    hide RunBody;
    var lines := p.fns[fn];
    if i < |lines| {
      if lines[i].guard.None? || CcTest(lines[i].guard.value, h.cpu.cpsr) {
        BodyMoreFuel(p, env, fuel, more, lines[i].body, h);
      }
      var t: Trace := RunLine(p, env, fuel, lines[i], h);
      var next := if t.out.Goto? then FindLabel(lines, t.out.target) else i + 1;
      if (t.out.Next? || t.out.Goto?) && next >= 0 {
        LinesMoreFuel(p, env, fuel - 1, more - 1, fn, next, ret, t.host);
      }
    }
  }

  // ---- straight-line code ----

  predicate AllStraight(body: seq<Stmt>) {
    forall s :: s in body ==> IsStraight(s)
  }

  function DoAll(body: seq<Stmt>, h: Host): Host
    requires AllStraight(body)
  {
    if body == [] then h else DoAll(body[1..], Do(body[0], h))
  }

  /** Straight-line statements just run, whatever follows them. */
  lemma {:induction false} RunStraight(p: Program, env: Env, fuel: nat, body: seq<Stmt>, rest: seq<Stmt>, h: Host)
    requires AllStraight(body)
    ensures RunBody(p, env, fuel, body + rest, h) == RunBody(p, env, fuel, rest, DoAll(body, h))
    decreases |body|
  {
    if body == [] {
      assert body + rest == rest;
    } else {
      assert (body + rest)[1..] == body[1..] + rest;
      RunStraight(p, env, fuel, body[1..], rest, Do(body[0], h));
    }
  }

  lemma DoAllConcat(a: seq<Stmt>, b: seq<Stmt>, h: Host)
    requires AllStraight(a) && AllStraight(b)
    ensures AllStraight(a + b) && DoAll(a + b, h) == DoAll(b, DoAll(a, h))
    decreases |a|
  {
    if a == [] {
      assert a + b == b;
    } else {
      assert (a + b)[1..] == a[1..] + b;
      DoAllConcat(a[1..], b, Do(a[0], h));
    }
  }
}
