/** The import table: every slot points at itself and is registered with the
    shim chosen for its import, so lifted calls through the slot reach it. */
module Imports {
  import opened Words
  import opened Guest
  import opened Machine
  import opened Wrappers
  import opened Segments
  import opened Arm
  import opened CCode
  import opened Lift
  import opened Simulation
  import opened MemorySim
  import opened Translation
  import opened Correctness
  import opened LiftLaws
  import M = DispatchModel
  import D = Dispatch

  datatype Import = Import(name: string, dll: string, slot: Word)

  /** A hand-written shim, or the generated stub number i. */
  datatype Shim = Named(fn: string) | Stub(i: nat)

  datatype Route = Route(slot: Word, shim: Shim)

  // ---- generation ----

  function Key(name: string): string {
    if "__imp_" <= name then name[6..] else name
  }

  function Chosen(implemented: map<string, string>, imps: seq<Import>, i: nat): Route
    requires i < |imps|
  {
    var key := Key(imps[i].name);
    Route(imps[i].slot,
          if key in implemented && implemented[key] != "" then Named(implemented[key]) else Stub(i))
  }

  function Routes(implemented: map<string, string>, imps: seq<Import>): seq<Route> {
    seq(|imps|, i requires 0 <= i < |imps| => Chosen(implemented, imps, i))
  }

  /** An import goes to the hand-written shim for its name, looked up without a leading
      `__imp_`, and to the stub of its own number when there is none. */
  lemma RouteIs(implemented: map<string, string>, imps: seq<Import>, i: nat, name: string)
    requires i < |imps| && (imps[i].name == "__imp_" + name || (imps[i].name == name && !("__imp_" <= name)))
    ensures Routes(implemented, imps)[i].slot == imps[i].slot
    ensures name in implemented && implemented[name] != "" ==>
              Routes(implemented, imps)[i].shim == Named(implemented[name])
    ensures name !in implemented || implemented[name] == "" ==> Routes(implemented, imps)[i].shim == Stub(i)
  {
    assert ("__imp_" + name)[6..] == name;
    assert Key(imps[i].name) == name;
  }

  /** The loop that picks shims: regs are the routes, stubs the imports without a shim. */
  method Generate(implemented: map<string, string>, imps: seq<Import>)
    returns (regs: seq<Route>, stubs: seq<nat>, implementedCount: nat)
    ensures regs == Routes(implemented, imps)
    ensures forall i :: i in stubs <==> 0 <= i < |imps| && regs[i].shim == Stub(i)
    ensures forall j, k :: 0 <= j < k < |stubs| ==> stubs[j] < stubs[k]
    ensures implementedCount + |stubs| == |imps|
  {
    regs, stubs, implementedCount := [], [], 0;
    for i := 0 to |imps|
      invariant regs == Routes(implemented, imps)[..i]
      invariant forall j :: j in stubs <==> 0 <= j < i && regs[j].shim == Stub(j)
      invariant forall j, k :: 0 <= j < k < |stubs| ==> stubs[j] < stubs[k]
      invariant implementedCount + |stubs| == i
    {
      assert Routes(implemented, imps)[..i + 1] == Routes(implemented, imps)[..i] + [Chosen(implemented, imps, i)];
      var key := Key(imps[i].name);
      var shim := if key in implemented then Named(implemented[key]) else Named("");
      if shim.fn != "" {
        implementedCount := implementedCount + 1;
      } else {
        shim := Stub(i);
        assert forall k :: 0 <= k < |stubs| ==> stubs[k] in stubs;
        stubs := stubs + [i];
      }
      ghost var before := regs;
      regs := regs + [Route(imps[i].slot, shim)];
      assert forall j :: 0 <= j < i ==> regs[j] == before[j];
    }
  }

  // ---- the generated init ----

  function InitMem(m: Mem, regs: seq<Route>): (r: Mem)
    ensures |r| == |m|
  {
    if regs == [] then m
    else
      var k := |regs| - 1;
      W32(InitMem(m, regs[..k]), regs[k].slot, regs[k].slot)
  }

  function InitTable(s: M.State, regs: seq<Route>, code: Shim -> nat): M.State {
    if regs == [] then s
    else
      var k := |regs| - 1;
      M.DoRegister(InitTable(s, regs[..k], code), regs[k].slot, code(regs[k].shim))
  }

  /** `ngage_hle_init`; code numbers the shims as the linker does. */
  method HleInit(c: NgageCpu, d: D.Dispatch, regs: seq<Route>, code: Shim -> nat)
    requires c.Valid() && d.Valid() && c.mem as object != d.tab as object
    modifies c.mem, d, d.tab
    ensures c.Valid() && d.Valid()
    ensures c.View() == old(c.View()).(mem := InitMem(old(c.mem[..]), regs))
    ensures d.state == InitTable(old(d.state), regs, code)
  {
    hide W32;
    var i := 0;
    while i < |regs|
      invariant i <= |regs| && c.Valid() && d.Valid()
      invariant d.tab == old(d.tab) || fresh(d.tab)
      invariant c.mem as object != d.tab as object
      invariant c.View() == old(c.View()).(mem := InitMem(old(c.mem[..]), regs[..i]))
      invariant d.state == InitTable(old(d.state), regs[..i], code)
    {
      assert regs[..i + 1][..i] == regs[..i];
      c.Write32(regs[i].slot, regs[i].slot);
      d.Register(regs[i].slot, code(regs[i].shim));
      i := i + 1;
    }
    assert regs[..i] == regs;
  }

  /** Slots are whole words of the window, apart from each other and from every
      address registered so far. */
  predicate SlotsOk(regs: seq<Route>, size: nat, table: map<Word, nat>) {
    && (forall i :: 0 <= i < |regs| ==> regs[i].slot + 4 <= size && regs[i].slot !in table)
    && (forall i, j :: 0 <= i < j < |regs| ==>
          regs[i].slot as int + 4 <= regs[j].slot || regs[j].slot as int + 4 <= regs[i].slot)
  }

  lemma SlotsPrefix(regs: seq<Route>, size: nat, table: map<Word, nat>)
    requires SlotsOk(regs, size, table) && regs != []
    ensures SlotsOk(regs[..|regs| - 1], size, table)
  {
  }

  lemma {:induction false} SlotReadsBack(m: Mem, regs: seq<Route>, i: nat, table: map<Word, nat>)
    requires SlotsOk(regs, |m|, table) && i < |regs|
    ensures R32(InitMem(m, regs), regs[i].slot) == regs[i].slot
    decreases |regs|
  {
    hide R32, W32;
    var k := |regs| - 1;
    var before := InitMem(m, regs[..k]);
    SlotsPrefix(regs, |m|, table);
    if i == k {
      ReadBack(before, regs[k].slot, regs[k].slot);
    } else {
      SlotReadsBack(m, regs[..k], i, table);
      ReadElsewhere(before, regs[k].slot, regs[k].slot, regs[i].slot);
    }
  }

  /** Initialisation changes no byte outside the slots. */
  lemma {:induction false} InitElsewhere(m: Mem, regs: seq<Route>, x: nat)
    requires x < |m| && forall i :: 0 <= i < |regs| ==> !(regs[i].slot <= x < regs[i].slot as int + 4)
    ensures InitMem(m, regs)[x] == m[x]
    decreases |regs|
  {
    hide W32;
    if regs != [] {
      var k := |regs| - 1;
      InitElsewhere(m, regs[..k], x);
      WriteElsewhere(InitMem(m, regs[..k]), regs[k].slot, regs[k].slot, x);
    }
  }

  /** The table after initialisation: what it held before, and every slot with its shim. */
  lemma {:induction false} SlotsRegister(s: M.State, regs: seq<Route>, code: Shim -> nat, size: nat)
    requires SlotsOk(regs, size, s.table)
    ensures var r := InitTable(s, regs, code);
            && (forall i :: 0 <= i < |regs| ==> regs[i].slot in r.table && r.table[regs[i].slot] == code(regs[i].shim))
            && (forall a :: a in s.table ==> a in r.table && r.table[a] == s.table[a])
            && r.dup == s.dup
    decreases |regs|
  {
    hide SlotsOk;
    if regs != [] {
      var k := |regs| - 1;
      SlotsPrefix(regs, size, s.table);
      SlotsRegister(s, regs[..k], code, size);
      var r := InitTable(s, regs[..k], code);
      OnlySlots(s, regs[..k], code);
      LastSlotNew(regs, size, s.table);
      assert forall i :: 0 <= i < k ==> regs[..k][i] == regs[i];
    }
  }

  lemma LastSlotNew(regs: seq<Route>, size: nat, table: map<Word, nat>)
    requires SlotsOk(regs, size, table) && regs != []
    ensures regs[|regs| - 1].slot !in table
    ensures forall i :: 0 <= i < |regs| - 1 ==> regs[i].slot != regs[|regs| - 1].slot
  {
  }

  lemma {:induction false} OnlySlots(s: M.State, regs: seq<Route>, code: Shim -> nat)
    ensures forall a :: a in InitTable(s, regs, code).table ==>
              a in s.table || exists i :: 0 <= i < |regs| && regs[i].slot == a
    decreases |regs|
  {
    if regs != [] {
      var k := |regs| - 1;
      OnlySlots(s, regs[..k], code);
      forall a | a in InitTable(s, regs[..k], code).table && a !in s.table
        ensures exists i :: 0 <= i < |regs| && regs[i].slot == a
      {
        var i :| 0 <= i < |regs[..k]| && regs[..k][i].slot == a;
        assert regs[i].slot == a;
      }
      assert regs[k].slot == regs[k].slot;
    }
  }

  lemma {:induction false} InitRecorded(s: M.State, regs: seq<Route>, code: Shim -> nat)
    requires M.Recorded(s)
    ensures M.Recorded(InitTable(s, regs, code))
    decreases |regs|
  {
    hide M.TableAfter, M.Truthful;
    if regs != [] {
      var k := |regs| - 1;
      InitRecorded(s, regs[..k], code);
      M.RecordNext(InitTable(s, regs[..k], code), M.Registered(regs[k].slot, code(regs[k].shim)));
    }
  }

  /** A call to a registered address runs its function first. */
  lemma CallLogs(bodies: M.Bodies, addr: Word, s: M.State)
    requires addr in s.table && s.depth < M.DEPTH_MAX && M.Counted(s)
    ensures s.log + [M.Ran(addr, s.table[addr])] <= M.DoCall(bodies, addr, s).s.log
  {
    hide M.DoActs;
    var fn := s.table[addr];
    M.ActsAccount(bodies, bodies(fn, s.calls), M.Enter(s, addr, fn));
  }

  /** After the init loop every slot reads back as its own address, and a call to
      that address runs the shim chosen for the import. */
  lemma ImportsWired(implemented: map<string, string>, imps: seq<Import>, i: nat, m: Mem, s: M.State,
                     code: Shim -> nat, bodies: M.Bodies)
    requires var regs := Routes(implemented, imps); SlotsOk(regs, |m|, s.table)
    requires i < |imps| && s.depth < M.DEPTH_MAX && M.Counted(s)
    ensures var regs := Routes(implemented, imps);
            var r, fn := InitTable(s, regs, code), code(Chosen(implemented, imps, i).shim);
            && R32(InitMem(m, regs), imps[i].slot) == imps[i].slot
            && imps[i].slot in r.table && r.table[imps[i].slot] == fn
            && r.log + [M.Ran(imps[i].slot, fn)] <= M.DoCall(bodies, imps[i].slot, r).s.log
  {
    hide R32, SlotsOk, InitMem, InitTable, M.DoCall;
    var regs := Routes(implemented, imps);
    SlotReadsBack(m, regs, i, s.table);
    SlotsRegister(s, regs, code, |m|);
    assert regs[i] == Chosen(implemented, imps, i);
    InitCounts(s, regs, code);
    CallLogs(bodies, imps[i].slot, InitTable(s, regs, code));
  }

  lemma {:induction false} InitCounts(s: M.State, regs: seq<Route>, code: Shim -> nat)
    ensures var r := InitTable(s, regs, code); r.depth == s.depth && r.live == s.live && r.lost == s.lost
    decreases |regs|
  {
    if regs != [] {
      InitCounts(s, regs[..|regs| - 1], code);
    }
  }

  // ---- lifted calls through a slot ----

  /** `ldr rd, [pc, #disp]`, the slot's address from the literal pool. */
  function LoadSlot(rd: RegNo, disp: int): Op {
    Load(Word4, false, rd, PC, ByImm(disp), Plain)
  }

  /** `ldr rt, [rd]`, the function pointer in the slot. */
  function LoadThrough(rt: RegNo, rd: RegNo): Op {
    Load(Word4, false, rt, rd, ByImm(0), Plain)
  }

  lemma LoadSlotRuns(p: Program, env: Env, fuel: nat, cx: Context, a: Word, next: Word, rd: RegNo, disp: int,
                     h: Host, slot: Word)
    requires rd != PC && a !in cx.tables && Literal(LoadSlot(rd, disp), a, cx.segs) == Some(slot)
    ensures RunLine(p, env, fuel, Emit(Item(a, Ins(AL, LoadSlot(rd, disp))), next, cx), h)
            == Trace(Next, SetReg(h, rd, slot), [])
  {
    hide Eval, Literal, RunBody, DoAll, AccessE, Update;
    var line := Emit(Item(a, Ins(AL, LoadSlot(rd, disp))), next, cx);
    assert line.body == [SAssign(EReg(rd), EConst(slot))] && line.guard == None;
    EvalConst(slot, h);
    DoOne(SAssign(EReg(rd), EConst(slot)), h);
    RunsToEnd(p, env, fuel, line.body, h);
  }

  lemma LoadThroughRuns(p: Program, env: Env, fuel: nat, cx: Context, a: Word, next: Word, rt: RegNo, rd: RegNo,
                        h: Host)
    requires rd != PC && rt != PC && a !in cx.tables
    ensures RunLine(p, env, fuel, Emit(Item(a, Ins(AL, LoadThrough(rt, rd))), next, cx), h)
            == Trace(Next, SetReg(h, rt, R32(h.cpu.mem, h.cpu.r[rd])), [])
  {
    hide Eval, RunBody, DoAll, ReadWord, R32;
    var line := Emit(Item(a, Ins(AL, LoadThrough(rt, rd))), next, cx);
    var e := ELoad(Word4, false, EReg(rd));
    assert line.body == [SAssign(EReg(rt), e)] + [] && line.guard == None;
    assert line.body == [SAssign(EReg(rt), e)];
    EvalReg(rd, a, h);
    EvalLoad(Word4, false, EReg(rd), h);
    DoOne(SAssign(EReg(rt), e), h);
    RunsToEnd(p, env, fuel, line.body, h);
  }

  lemma CallThroughRuns(p: Program, env: Env, fuel: nat, cx: Context, a: Word, next: Word, rt: RegNo, h: Host)
    requires rt != PC && rt != LR
    ensures var t := RunLine(p, env, fuel, Emit(Item(a, Ins(AL, Bx(rt))), next, cx), h);
            var c := Call(p, env, fuel, h.cpu.r[rt], h);
            t == if c.out == Return then c.(out := if a in cx.callContinue then Next else Return) else c
  {
    hide Eval, RunBody, Call;
    var rest := if a in cx.callContinue then [] else [SReturn];
    var line := Emit(Item(a, Ins(AL, Bx(rt))), next, cx);
    assert line.body == [SCall(EReg(rt))] + rest && line.guard == None;
    EvalReg(rt, a, h);
    CallRuns(p, env, fuel, EReg(rt), rest, h);
  }

  /** The line lifted from an unconditional instruction at a. */
  function LineOf(cx: Context, a: Word, op: Op): Line {
    Emit(Item(a, Ins(AL, op)), Wrap(a + 4), cx)
  }

  /** A host function: what it makes of the calls so far, the registers and memory. */
  type HostFn = (seq<Event>, Regs, Mem) -> ExtResult

  /** Calls out of lifted code go through the dispatch table, to its host functions. */
  ghost predicate Dispatches(env: Env, table: map<Word, nat>, hosts: nat -> HostFn) {
    forall log, a, r, m :: a in table ==> env.ext(log, a, r, m) == hosts(table[a])(log, r, m)
  }

  /** The host function of the shim chosen for import k. */
  function ShimOf(implemented: map<string, string>, imps: seq<Import>, k: nat, code: Shim -> nat,
                  hosts: nat -> HostFn): HostFn
    requires k < |imps|
  {
    hosts(code(Chosen(implemented, imps, k).shim))
  }

  /** The state after the shim called through slot returns r and mem. */
  function AfterShim(h: Host, slot: Word, r: Regs, mem: Mem): Host {
    h.(cpu := h.cpu.(r := r, mem := mem), log := h.log + [Event(slot, h.cpu.r, h.cpu.mem)])
  }

  /** The three lines load slot into rd and rt and then call it, by `bx` or `blx`: f runs,
      with lr set if the call links, and what it does is what the whole sequence does. */
  predicate CallsThrough(p: Program, env: Env, fuel: nat, cx: Context, a: Word, rd: RegNo, rt: RegNo, disp: int,
                         links: bool, slot: Word, f: HostFn, h: Host) {
    var h1 := SetReg(h, rd, slot);
    var h2 := SetReg(h1, rt, slot);
    var called := if links then SetReg(h2, LR, Wrap(Wrap(a + 8) + 4)) else h2;
    var back := links || Wrap(a + 8) in cx.callContinue;
    var t: Trace := RunLine(p, env, fuel, LineOf(cx, Wrap(a + 8), if links then BlxReg(rt) else Bx(rt)), h2);
    && RunLine(p, env, fuel, LineOf(cx, a, LoadSlot(rd, disp)), h) == Trace(Next, h1, [])
    && RunLine(p, env, fuel, LineOf(cx, Wrap(a + 4), LoadThrough(rt, rd)), h1) == Trace(Next, h2, [])
    && (match f(h.log, called.cpu.r, called.cpu.mem)
        case Left => t == Trace(Stuck, called, [])
        case Returned(r, mem) => t == Trace(if back then Next else Return, AfterShim(called, slot, r, mem), []))
  }

  lemma SlotSequence(p: Program, env: Env, fuel: nat, cx: Context, a: Word, rd: RegNo, rt: RegNo, disp: int,
                     links: bool, slot: Word, f: HostFn, h: Host)
    requires slot in p.exts && slot !in p.fns && R32(h.cpu.mem, slot) == slot
    requires a !in cx.tables && Wrap(a + 4) !in cx.tables && rd != PC && rt != PC && rt != LR
    requires Literal(LoadSlot(rd, disp), a, cx.segs) == Some(slot)
    requires forall log, r, m :: env.ext(log, slot, r, m) == f(log, r, m)
    ensures CallsThrough(p, env, fuel, cx, a, rd, rt, disp, links, slot, f, h)
  {
    hide R32, RunLine, LineOf, Literal, Call;
    var h1 := SetReg(h, rd, slot);
    var h2 := SetReg(h1, rt, slot);
    LineOfSlot(p, env, fuel, cx, a, rd, disp, h, slot);
    LineOfThrough(p, env, fuel, cx, Wrap(a + 4), rt, rd, h1);
    if links {
      OutsideCall(p, env, fuel, slot, SetReg(h2, LR, Wrap(Wrap(a + 8) + 4)));
      LineOfLink(p, env, fuel, cx, Wrap(a + 8), rt, h2);
    } else {
      OutsideCall(p, env, fuel, slot, h2);
      LineOfCall(p, env, fuel, cx, Wrap(a + 8), rt, h2);
    }
  }

  /** The slots are initialised, calls go through the initialised table, and memory holds
      the slot of import k as initialised. */
  ghost predicate SlotReady(implemented: map<string, string>, imps: seq<Import>, k: nat, m: Mem, s: M.State,
                            code: Shim -> nat, hosts: nat -> HostFn, env: Env, mem: Mem) {
    && SlotsOk(Routes(implemented, imps), |m|, s.table)
    && Dispatches(env, InitTable(s, Routes(implemented, imps), code).table, hosts)
    && k < |imps| && R32(mem, imps[k].slot) == R32(InitMem(m, Routes(implemented, imps)), imps[k].slot)
  }

  /** Then the slot holds its own address, and a call to that is the shim chosen for k. */
  lemma ShimFound(implemented: map<string, string>, imps: seq<Import>, k: nat, m: Mem, s: M.State, code: Shim -> nat,
                  hosts: nat -> HostFn, env: Env, mem: Mem)
    requires SlotReady(implemented, imps, k, m, s, code, hosts, env, mem)
    ensures k < |imps| && R32(mem, imps[k].slot) == imps[k].slot
    ensures forall log, r, mem1 :: env.ext(log, imps[k].slot, r, mem1)
                                   == ShimOf(implemented, imps, k, code, hosts)(log, r, mem1)
  {
    hide R32, SlotsOk, InitMem, InitTable;
    var regs := Routes(implemented, imps);
    assert regs[k] == Chosen(implemented, imps, k);
    SlotReadsBack(m, regs, k, s.table);
    SlotsRegister(s, regs, code, |m|);
  }

  /** Load the slot's address, load through the slot, call: in every state whose slot is
      as initialised, and where calls go through the initialised table, the lifted
      sequence runs the shim chosen for that import, by `bx` or by `blx`. */
  lemma LiftedImportCall(implemented: map<string, string>, imps: seq<Import>, i: nat, m: Mem, s: M.State,
                         code: Shim -> nat, hosts: nat -> HostFn, p: Program, env: Env, fuel: nat, cx: Context,
                         a: Word, rd: RegNo, rt: RegNo, disp: int, links: bool, h: Host)
    requires SlotReady(implemented, imps, i, m, s, code, hosts, env, h.cpu.mem)
    requires i < |imps| && imps[i].slot in p.exts && imps[i].slot !in p.fns
    requires a !in cx.tables && Wrap(a + 4) !in cx.tables && rd != PC && rt != PC && rt != LR
    requires Literal(LoadSlot(rd, disp), a, cx.segs) == Some(imps[i].slot)
    ensures CallsThrough(p, env, fuel, cx, a, rd, rt, disp, links, imps[i].slot,
                         ShimOf(implemented, imps, i, code, hosts), h)
  {
    hide R32, SlotReady, CallsThrough, Literal;
    ShimFound(implemented, imps, i, m, s, code, hosts, env, h.cpu.mem);
    SlotSequence(p, env, fuel, cx, a, rd, rt, disp, links, imps[i].slot,
                 ShimOf(implemented, imps, i, code, hosts), h);
  }

  lemma OutsideCall(p: Program, env: Env, fuel: nat, slot: Word, h: Host)
    requires slot in p.exts && slot !in p.fns
    ensures Call(p, env, fuel, slot, h) ==
            match env.ext(h.log, slot, h.cpu.r, h.cpu.mem)
            case Left => Trace(Stuck, h, [])
            case Returned(r, mem) => Trace(Return, AfterShim(h, slot, r, mem), [])
  {
    hide RunLines;
  }

  lemma LineOfSlot(p: Program, env: Env, fuel: nat, cx: Context, a: Word, rd: RegNo, disp: int, h: Host, slot: Word)
    requires rd != PC && a !in cx.tables && Literal(LoadSlot(rd, disp), a, cx.segs) == Some(slot)
    ensures RunLine(p, env, fuel, LineOf(cx, a, LoadSlot(rd, disp)), h) == Trace(Next, SetReg(h, rd, slot), [])
  {
    hide RunLine, Emit, Literal;
    LoadSlotRuns(p, env, fuel, cx, a, Wrap(a + 4), rd, disp, h, slot);
  }

  lemma LineOfThrough(p: Program, env: Env, fuel: nat, cx: Context, a: Word, rt: RegNo, rd: RegNo, h: Host)
    requires rd != PC && rt != PC && a !in cx.tables
    ensures RunLine(p, env, fuel, LineOf(cx, a, LoadThrough(rt, rd)), h)
            == Trace(Next, SetReg(h, rt, R32(h.cpu.mem, h.cpu.r[rd])), [])
  {
    hide RunLine, Emit, R32;
    LoadThroughRuns(p, env, fuel, cx, a, Wrap(a + 4), rt, rd, h);
  }

  lemma LineOfCall(p: Program, env: Env, fuel: nat, cx: Context, a: Word, rt: RegNo, h: Host)
    requires rt != PC && rt != LR
    ensures var t := RunLine(p, env, fuel, LineOf(cx, a, Bx(rt)), h);
            var c := Call(p, env, fuel, h.cpu.r[rt], h);
            t == if c.out == Return then c.(out := if a in cx.callContinue then Next else Return) else c
  {
    hide RunLine, Emit, Call;
    CallThroughRuns(p, env, fuel, cx, a, Wrap(a + 4), rt, h);
  }

  lemma LineOfLink(p: Program, env: Env, fuel: nat, cx: Context, a: Word, rt: RegNo, h: Host)
    requires rt != PC && rt != LR
    ensures var t := RunLine(p, env, fuel, LineOf(cx, a, BlxReg(rt)), h);
            var c := Call(p, env, fuel, h.cpu.r[rt], SetReg(h, LR, Wrap(a + 4)));
            t == if c.out == Return then c.(out := Next) else c
  {
    hide Eval, RunBody, Call, DoAll, AllStraight;
    var pre, next := [SAssign(EReg(LR), EConst(Wrap(a + 4)))], Wrap(a + 4);
    var linked := SetReg(h, LR, next);
    assert LineOf(cx, a, BlxReg(rt)) == Line(None, None, pre + ([SCall(EReg(rt))] + []));
    LinkRuns(next, h);
    EvalReg(rt, a, linked);
    CallRuns(p, env, fuel, EReg(rt), [], linked);
    RunStraight(p, env, fuel, pre, [SCall(EReg(rt))] + [], h);
  }

  // ---- the same, as a run of the lifted function that holds the sequence ----

  lemma MarkIgnored(p: Program, env: Env, fuel: nat, line: Line, mark: Option<Word>, h: Host)
    ensures RunLine(p, env, fuel, line.(mark := mark), h) == RunLine(p, env, fuel, line, h)
  {
    hide RunBody;
  }

  lemma RunNext(p: Program, env: Env, fuel: nat, fn: Word, i: nat, ret: Word, h: Host, h1: Host)
    requires fn in p.fns && i < |p.fns[fn]| && fuel > 0
    requires RunLine(p, env, fuel, p.fns[fn][i], h) == Trace(Next, h1, [])
    ensures var rest := RunLines(p, env, fuel - 1, fn, i + 1, ret, h1);
            RunLines(p, env, fuel, fn, i, ret, h)
            == rest.(visits := [Visit(fn, i, ret, h.cpu, h.log)] + rest.visits)
  {
    hide RunLine;
    assert [Visit(fn, i, ret, h.cpu, h.log)] + [] == [Visit(fn, i, ret, h.cpu, h.log)];
  }

  lemma RunReturns(p: Program, env: Env, fuel: nat, fn: Word, i: nat, ret: Word, h: Host, h1: Host, out: Out)
    requires fn in p.fns && i < |p.fns[fn]| && (out == Return || out == Stuck)
    requires RunLine(p, env, fuel, p.fns[fn][i], h) == Trace(out, h1, [])
    ensures RunLines(p, env, fuel, fn, i, ret, h) == Trace(out, h1, [Visit(fn, i, ret, h.cpu, h.log)])
  {
    hide RunLine;
    assert [Visit(fn, i, ret, h.cpu, h.log)] + [] == [Visit(fn, i, ret, h.cpu, h.log)];
  }

  /** Only linking calls use the address of the next instruction. */
  lemma NextUnused(item: Item, next: Word, other: Word, cx: Context)
    requires !item.ins.op.Bl? && !item.ins.op.BlxReg?
    ensures Emit(item, next, cx) == Emit(item, other, cx)
  {
    hide Body;
  }

  /** The line of an unconditional instruction of a lifted function runs as LineOf. */
  lemma LiftedLine(src: Source, env: Env, fuel: nat, fn: Word, i: nat, op: Op, h: Host)
    requires fn in src.fns && i < |Decoded(src.fns[fn])| && Decoded(src.fns[fn])[i].ins == Ins(AL, op)
    requires op.Bl? || op.BlxReg? ==>
               NextAddr(src.fns[fn], Decoded(src.fns[fn]), i) == Wrap(Decoded(src.fns[fn])[i].addr + 4)
    ensures fn in Lifted(src).fns && i < |Lifted(src).fns[fn]|
    ensures var d := Decoded(src.fns[fn]);
            RunLine(Lifted(src), env, fuel, Lifted(src).fns[fn][i], h)
            == RunLine(Lifted(src), env, fuel, LineOf(ContextOf(src.segs, d), d[i].addr, op), h)
  {
    hide Decoded, ContextOf, Labels, Emit, RunLine;
    LiftedLength(src, fn);
    var d := Decoded(src.fns[fn]);
    assert Lifted(src).fns[fn][i] == LineAt(src.segs, src.fns[fn], i);
    var mark := if d[i].addr in Labels(src.segs, d) then Some(d[i].addr) else None;
    if !op.Bl? && !op.BlxReg? {
      NextUnused(d[i], NextAddr(src.fns[fn], d, i), Wrap(d[i].addr + 4), ContextOf(src.segs, d));
    }
    MarkIgnored(Lifted(src), env, fuel, LineOf(ContextOf(src.segs, d), d[i].addr, op), mark, h);
  }

  /** Instructions i and i + 1 of the function load slot into rd and through it into rt. */
  predicate LoadsSlot(src: Source, fn: Word, d: seq<Item>, i: nat, rd: RegNo, rt: RegNo, disp: int, slot: Word) {
    && fn in src.fns && d == Decoded(src.fns[fn]) && i + 2 < |d| && slot in src.exts
    && rd != PC && rt != PC && Literal(LoadSlot(rd, disp), d[i].addr, src.segs) == Some(slot)
    && d[i].ins == Ins(AL, LoadSlot(rd, disp)) && d[i + 1].ins == Ins(AL, LoadThrough(rt, rd))
  }

  /** The run from line i in h, with these visits before it. */
  function Resumed(src: Source, env: Env, fuel: nat, fn: Word, i: nat, ret: Word, h: Host, visits: seq<Visit>): Trace
    requires fn in Lifted(src).fns
  {
    var rest := RunLines(Lifted(src), env, fuel, fn, i, ret, h);
    rest.(visits := visits + rest.visits)
  }

  function At(fn: Word, i: nat, ret: Word, h: Host): Visit {
    Visit(fn, i, ret, h.cpu, h.log)
  }

  lemma ResumedNext(src: Source, env: Env, fuel: nat, fn: Word, i: nat, ret: Word, h: Host, h1: Host,
                    visits: seq<Visit>)
    requires fn in Lifted(src).fns && i < |Lifted(src).fns[fn]| && fuel > 0
    requires RunLine(Lifted(src), env, fuel, Lifted(src).fns[fn][i], h) == Trace(Next, h1, [])
    ensures Resumed(src, env, fuel, fn, i, ret, h, visits)
            == Resumed(src, env, fuel - 1, fn, i + 1, ret, h1, visits + [At(fn, i, ret, h)])
  {
    hide RunLine, RunLines, Lifted;
    RunNext(Lifted(src), env, fuel, fn, i, ret, h, h1);
    var rest := RunLines(Lifted(src), env, fuel - 1, fn, i + 1, ret, h1).visits;
    assert visits + ([At(fn, i, ret, h)] + rest) == visits + [At(fn, i, ret, h)] + rest;
  }

  lemma NothingBefore(src: Source, env: Env, fuel: nat, fn: Word, i: nat, ret: Word, h: Host)
    requires fn in Lifted(src).fns
    ensures RunLines(Lifted(src), env, fuel, fn, i, ret, h) == Resumed(src, env, fuel, fn, i, ret, h, [])
  {
    hide RunLines, Lifted;
    var rest := RunLines(Lifted(src), env, fuel, fn, i, ret, h);
    assert [] + rest.visits == rest.visits;
  }

  /** The two loads leave the slot's address in rd and rt. */
  lemma LoadsRun(src: Source, arm: Code, env: Env, fuel: nat, fn: Word, d: seq<Item>, i: nat, ret: Word, rd: RegNo,
                 rt: RegNo, disp: int, slot: Word, h: Host)
    requires SourceOk(src, arm) && LoadsSlot(src, fn, d, i, rd, rt, disp, slot) && fuel >= 2
    requires R32(h.cpu.mem, slot) == slot
    ensures fn in Lifted(src).fns && |Lifted(src).fns[fn]| == |d|
    ensures var h1 := SetReg(h, rd, slot);
            RunLines(Lifted(src), env, fuel, fn, i, ret, h)
            == Resumed(src, env, fuel - 2, fn, i + 2, ret, SetReg(h1, rt, slot),
                       [At(fn, i, ret, h), At(fn, i + 1, ret, h1)])
  {
    hide R32, Literal, Decoded, ContextOf, RunLine, RunLines, SourceOk, Lifted, LineOf, Resumed, At;
    LiftedLength(src, fn);
    var p, cx, h1 := Lifted(src), ContextOf(src.segs, d), SetReg(h, rd, slot);
    NotTable(src, arm, fn, i);
    NotTable(src, arm, fn, i + 1);
    SegsOf(src.segs, d);
    NothingBefore(src, env, fuel, fn, i, ret, h);
    LiftedLine(src, env, fuel, fn, i, LoadSlot(rd, disp), h);
    LineOfSlot(p, env, fuel, cx, d[i].addr, rd, disp, h, slot);
    ResumedNext(src, env, fuel, fn, i, ret, h, h1, []);
    LiftedLine(src, env, fuel - 1, fn, i + 1, LoadThrough(rt, rd), h1);
    LineOfThrough(p, env, fuel - 1, cx, d[i + 1].addr, rt, rd, h1);
    ResumedNext(src, env, fuel - 1, fn, i + 1, ret, h1, SetReg(h1, rt, slot), [] + [At(fn, i, ret, h)]);
    assert [] + [At(fn, i, ret, h)] + [At(fn, i + 1, ret, h1)] == [At(fn, i, ret, h), At(fn, i + 1, ret, h1)];
  }

  /** A run stops at line i, returning or not. */
  lemma ResumedStops(src: Source, env: Env, fuel: nat, fn: Word, i: nat, ret: Word, h: Host, h1: Host, out: Out,
                     visits: seq<Visit>)
    requires fn in Lifted(src).fns && i < |Lifted(src).fns[fn]| && (out == Return || out == Stuck)
    requires RunLine(Lifted(src), env, fuel, Lifted(src).fns[fn][i], h) == Trace(out, h1, [])
    ensures Resumed(src, env, fuel, fn, i, ret, h, visits) == Trace(out, h1, visits + [At(fn, i, ret, h)])
  {
    hide RunLine, RunLines, Lifted;
    RunReturns(Lifted(src), env, fuel, fn, i, ret, h, h1, out);
  }

  /** What running shim f, called from line i of the function in state h, makes of the run:
      it leaves the run there, or the run comes back to line i + 1, or returns. */
  predicate ShimRuns(src: Source, env: Env, fuel: nat, fn: Word, i: nat, ret: Word, slot: Word, f: HostFn, h: Host,
                     back: bool, visits: seq<Visit>, run: Trace)
    requires fn in Lifted(src).fns && fuel > 0
  {
    match f(h.log, h.cpu.r, h.cpu.mem)
    case Left => run == Trace(Stuck, h, visits)
    case Returned(r, mem) =>
      if back then run == Resumed(src, env, fuel - 1, fn, i + 1, ret, AfterShim(h, slot, r, mem), visits)
      else run == Trace(Return, AfterShim(h, slot, r, mem), visits)
  }

  /** A line that calls slot from state called, and comes back or returns. */
  lemma CallLineRuns(src: Source, env: Env, fuel: nat, fn: Word, i: nat, ret: Word, slot: Word, f: HostFn, h: Host,
                     called: Host, back: bool, visits: seq<Visit>)
    requires fn in Lifted(src).fns && i < |Lifted(src).fns[fn]| && fuel > 0
    requires slot in Lifted(src).exts && slot !in Lifted(src).fns
    requires forall log, r, m :: env.ext(log, slot, r, m) == f(log, r, m)
    requires var c := Call(Lifted(src), env, fuel, slot, called);
             RunLine(Lifted(src), env, fuel, Lifted(src).fns[fn][i], h)
             == if c.out == Return then c.(out := if back then Next else Return) else c
    ensures ShimRuns(src, env, fuel, fn, i, ret, slot, f, called, back, visits + [At(fn, i, ret, h)],
                     Resumed(src, env, fuel, fn, i, ret, h, visits))
  {
    hide RunLine, RunLines, Call, Lifted, Resumed, At;
    OutsideCall(Lifted(src), env, fuel, slot, called);
    match f(called.log, called.cpu.r, called.cpu.mem)
    case Left => ResumedStops(src, env, fuel, fn, i, ret, h, called, Stuck, visits);
    case Returned(r, mem) =>
      var h1 := AfterShim(called, slot, r, mem);
      if back {
        ResumedNext(src, env, fuel, fn, i, ret, h, h1, visits);
      } else {
        ResumedStops(src, env, fuel, fn, i, ret, h, h1, Return, visits);
      }
  }

  lemma SlotOutside(src: Source, arm: Code, slot: Word)
    requires SourceOk(src, arm) && slot in src.exts
    ensures slot in Lifted(src).exts && slot !in Lifted(src).fns
  {
    hide LiftFunc, Decoded;
    Registered(src, arm, slot);
  }

  lemma MarkedIff(src: Source, arm: Code, fn: Word, d: seq<Item>, i: nat)
    requires SourceOk(src, arm) && fn in src.fns && d == Decoded(src.fns[fn]) && 0 < i < |d|
    ensures d[i].addr in ContextOf(src.segs, d).callContinue <==> IsIdiom(d, i)
  {
    hide SourceOk, Decoded, CallContinue, ItemOk, Distinct, IsIdiom;
    ItemFacts(src, arm, fn, i);
    ContextIs(src.segs, d);
    InCallContinue(d, i);
  }

  /** A lifted function that loads the slot's address, loads through the slot and jumps there
      with `bx`: run from the first of the three, it runs the shim chosen for that import and
      returns with it. */
  lemma LiftedImportRun(implemented: map<string, string>, imps: seq<Import>, k: nat, m: Mem, s: M.State,
                        code: Shim -> nat, hosts: nat -> HostFn, src: Source, arm: Code, env: Env, fuel: nat,
                        fn: Word, d: seq<Item>, i: nat, ret: Word, rd: RegNo, rt: RegNo, disp: int, h: Host)
    requires SlotReady(implemented, imps, k, m, s, code, hosts, env, h.cpu.mem) && k < |imps| && fuel >= 3
    requires SourceOk(src, arm) && LoadsSlot(src, fn, d, i, rd, rt, disp, imps[k].slot)
    requires rt != LR && d[i + 2].ins == Ins(AL, Bx(rt))
    ensures fn in Lifted(src).fns
    ensures var slot := imps[k].slot;
            var h1 := SetReg(h, rd, slot);
            var h2 := SetReg(h1, rt, slot);
            ShimRuns(src, env, fuel - 2, fn, i + 2, ret, slot, ShimOf(implemented, imps, k, code, hosts), h2, false,
                     [At(fn, i, ret, h), At(fn, i + 1, ret, h1), At(fn, i + 2, ret, h2)],
                     RunLines(Lifted(src), env, fuel, fn, i, ret, h))
  {
    hide R32, SlotReady, Literal, Decoded, ContextOf, RunLine, RunLines, SourceOk, Lifted, LineOf, Resumed, At, Call,
         ShimRuns;
    var slot, cx := imps[k].slot, ContextOf(src.segs, d);
    var h1 := SetReg(h, rd, slot);
    var h2 := SetReg(h1, rt, slot);
    ShimFound(implemented, imps, k, m, s, code, hosts, env, h.cpu.mem);
    LoadsRun(src, arm, env, fuel, fn, d, i, ret, rd, rt, disp, slot, h);
    SlotOutside(src, arm, slot);
    MarkedIff(src, arm, fn, d, i + 2);
    LiftedLine(src, env, fuel - 2, fn, i + 2, Bx(rt), h2);
    LineOfCall(Lifted(src), env, fuel - 2, cx, d[i + 2].addr, rt, h2);
    CallLineRuns(src, env, fuel - 2, fn, i + 2, ret, slot, ShimOf(implemented, imps, k, code, hosts), h2, h2, false,
                 [At(fn, i, ret, h), At(fn, i + 1, ret, h1)]);
    assert [At(fn, i, ret, h), At(fn, i + 1, ret, h1)] + [At(fn, i + 2, ret, h2)]
        == [At(fn, i, ret, h), At(fn, i + 1, ret, h1), At(fn, i + 2, ret, h2)];
  }

  /** The same with `blx`: the shim runs with lr at the next instruction, and when it returns
      the function goes on there. */
  lemma LiftedImportLink(implemented: map<string, string>, imps: seq<Import>, k: nat, m: Mem, s: M.State,
                         code: Shim -> nat, hosts: nat -> HostFn, src: Source, arm: Code, env: Env, fuel: nat,
                         fn: Word, d: seq<Item>, i: nat, ret: Word, rd: RegNo, rt: RegNo, disp: int, h: Host)
    requires SlotReady(implemented, imps, k, m, s, code, hosts, env, h.cpu.mem) && k < |imps| && fuel >= 3
    requires SourceOk(src, arm) && LoadsSlot(src, fn, d, i, rd, rt, disp, imps[k].slot)
    requires d[i + 2].ins == Ins(AL, BlxReg(rt))
    ensures fn in Lifted(src).fns && i + 3 < |d| && d[i + 3].addr == d[i + 2].addr + 4
    ensures var slot := imps[k].slot;
            var h1 := SetReg(h, rd, slot);
            var h2 := SetReg(h1, rt, slot);
            ShimRuns(src, env, fuel - 2, fn, i + 2, ret, slot, ShimOf(implemented, imps, k, code, hosts),
                     SetReg(h2, LR, d[i + 3].addr), true,
                     [At(fn, i, ret, h), At(fn, i + 1, ret, h1), At(fn, i + 2, ret, h2)],
                     RunLines(Lifted(src), env, fuel, fn, i, ret, h))
  {
    hide R32, SlotReady, Literal, Decoded, ContextOf, RunLine, RunLines, SourceOk, Lifted, LineOf, Resumed, At, Call,
         ShimRuns;
    var slot, cx := imps[k].slot, ContextOf(src.segs, d);
    var h1 := SetReg(h, rd, slot);
    var h2 := SetReg(h1, rt, slot);
    ShimFound(implemented, imps, k, m, s, code, hosts, env, h.cpu.mem);
    LoadsRun(src, arm, env, fuel, fn, d, i, ret, rd, rt, disp, slot, h);
    SlotOutside(src, arm, slot);
    BlxContinues(src, arm, fn, d, i + 2, rt);
    LiftedLine(src, env, fuel - 2, fn, i + 2, BlxReg(rt), h2);
    LineOfLink(Lifted(src), env, fuel - 2, cx, d[i + 2].addr, rt, h2);
    CallLineRuns(src, env, fuel - 2, fn, i + 2, ret, slot, ShimOf(implemented, imps, k, code, hosts), h2,
                 SetReg(h2, LR, d[i + 3].addr), true, [At(fn, i, ret, h), At(fn, i + 1, ret, h1)]);
    assert [At(fn, i, ret, h), At(fn, i + 1, ret, h1)] + [At(fn, i + 2, ret, h2)]
        == [At(fn, i, ret, h), At(fn, i + 1, ret, h1), At(fn, i + 2, ret, h2)];
  }

  /** A `blx` the side conditions admit names another register than lr and is followed by
      the next instruction. */
  lemma BlxContinues(src: Source, arm: Code, fn: Word, d: seq<Item>, i: nat, rt: RegNo)
    requires SourceOk(src, arm) && fn in src.fns && d == Decoded(src.fns[fn]) && i < |d| && d[i].ins.op == BlxReg(rt)
    ensures rt != LR && i + 1 < |d| && d[i + 1].addr == d[i].addr + 4 && Wrap(d[i].addr + 4) == d[i].addr + 4
    ensures NextAddr(src.fns[fn], d, i) == Wrap(d[i].addr + 4)
  {
    hide SourceOk, Decoded, Distinct, CallContinue;
    ItemFacts(src, arm, fn, i);
  }

  /** The same with `mov lr, pc` and then `bx`, under any two conditions of which the second
      entails the first: when the `bx` is carried out the shim runs with lr at the instruction
      after it, and when it returns the function goes on there. */
  lemma LiftedImportIdiom(implemented: map<string, string>, imps: seq<Import>, k: nat, m: Mem, s: M.State,
                          code: Shim -> nat, hosts: nat -> HostFn, src: Source, arm: Code, env: Env, fuel: nat,
                          fn: Word, d: seq<Item>, i: nat, ret: Word, rd: RegNo, rt: RegNo, disp: int, h: Host)
    requires SlotReady(implemented, imps, k, m, s, code, hosts, env, h.cpu.mem) && k < |imps| && fuel >= 4
    requires SourceOk(src, arm) && LoadsSlot(src, fn, d, i, rd, rt, disp, imps[k].slot) && i + 3 < |d|
    requires rt != LR && MovesPcToLr(d[i + 2].ins.op) && d[i + 3].ins.op == Bx(rt)
    requires CcTest(d[i + 3].ins.cond, h.cpu.cpsr) && Entails(d[i + 3].ins.cond, d[i + 2].ins.cond)
    ensures fn in Lifted(src).fns && i + 4 < |d| && d[i + 4].addr == d[i + 2].addr + 8
    ensures var slot := imps[k].slot;
            var h1 := SetReg(h, rd, slot);
            var h2 := SetReg(h1, rt, slot);
            var h3 := SetReg(h2, LR, d[i + 4].addr);
            ShimRuns(src, env, fuel - 3, fn, i + 3, ret, slot, ShimOf(implemented, imps, k, code, hosts), h3, true,
                     [At(fn, i, ret, h), At(fn, i + 1, ret, h1), At(fn, i + 2, ret, h2), At(fn, i + 3, ret, h3)],
                     RunLines(Lifted(src), env, fuel, fn, i, ret, h))
  {
    hide R32, SlotReady, Literal, Decoded, ContextOf, RunLine, RunLines, SourceOk, Lifted, LineOf, Resumed, At, Call,
         ShimRuns, LiftFunc, Entails, CcTest, Distinct;
    var slot := imps[k].slot;
    var h1 := SetReg(h, rd, slot);
    var h2 := SetReg(h1, rt, slot);
    var two := [At(fn, i, ret, h), At(fn, i + 1, ret, h1)];
    ShimFound(implemented, imps, k, m, s, code, hosts, env, h.cpu.mem);
    LoadsRun(src, arm, env, fuel, fn, d, i, ret, rd, rt, disp, slot, h);
    SlotOutside(src, arm, slot);
    IdiomContinues(src, arm, fn, d, i + 2, rt);
    LinesOf(src, fn);
    if !CcTest(d[i + 2].ins.cond, h.cpu.cpsr) {
      EntailedFails(d[i + 3].ins.cond, d[i + 2].ins.cond, h.cpu.cpsr);
    }
    var h3 := SetReg(h2, LR, d[i + 4].addr);
    MovLinkLine(Lifted(src), env, fuel - 2, src.segs, src.fns[fn], i + 2, h2);
    ResumedNext(src, env, fuel - 2, fn, i + 2, ret, h2, h3, two);
    BxLine(Lifted(src), env, fuel - 3, src.segs, src.fns[fn], i + 3, rt, h3);
    CallLineRuns(src, env, fuel - 3, fn, i + 3, ret, slot, ShimOf(implemented, imps, k, code, hosts), h3, h3, true,
                 two + [At(fn, i + 2, ret, h2)]);
    assert two + [At(fn, i + 2, ret, h2)] + [At(fn, i + 3, ret, h3)]
        == [At(fn, i, ret, h), At(fn, i + 1, ret, h1), At(fn, i + 2, ret, h2), At(fn, i + 3, ret, h3)];
  }

  /** The instructions of the idiom follow one another. */
  lemma IdiomContinues(src: Source, arm: Code, fn: Word, d: seq<Item>, i: nat, rt: RegNo)
    requires SourceOk(src, arm) && fn in src.fns && d == Decoded(src.fns[fn]) && i + 1 < |d| && rt != LR
    requires MovesPcToLr(d[i].ins.op) && d[i + 1].ins.op == Bx(rt)
    ensures Distinct(d) && i + 2 < |d| && d[i + 2].addr == d[i].addr + 8 && Wrap(d[i].addr + 8) == d[i].addr + 8
  {
    hide SourceOk, Decoded, Distinct;
    ItemFacts(src, arm, fn, i);
    ItemFacts(src, arm, fn, i + 1);
    InCallContinue(d, i + 1);
  }
}
