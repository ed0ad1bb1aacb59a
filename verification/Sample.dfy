/** The hypotheses of the translation theorem, met: a leaf function that calls
    an outside one under a condition, `push {lr}; blne OUT; pop {pc}`. */
module Sample {
  import opened Words
  import opened Guest
  import opened Machine
  import opened Wrappers
  import opened Arm
  import opened CCode
  import opened Lift
  import opened BlockSim
  import opened Translation
  import opened Correctness
  import opened MemorySim
  import opened Abi

  const ENTRY: Word := 0x1000
  const OUT: Word := 0x2000

  function Code3(): seq<Item> {
    [Item(0x1000, Ins(AL, Push({LR}))), Item(0x1004, Ins(NE, Bl(OUT))), Item(0x1008, Ins(AL, Pop({PC})))]
  }

  function Fn3(): Fn {
    Fn(0x1000, 0x100C, 12, [0x1000, 0x1004, 0x1008],
       map[0x1000 := Code3()[0].ins, 0x1004 := Code3()[1].ins, 0x1008 := Code3()[2].ins])
  }

  function Src3(): Source {
    Source(map[ENTRY := Fn3()], [], {OUT})
  }

  function Text3(): Code {
    Code(Fn3().disasm, {OUT})
  }

  lemma Decodes()
    ensures Decoded(Fn3()) == Code3()
  {
    var heads := HeadsOf(Fn3());
    assert heads == [0x1000, 0x1004, 0x1008];
    assert DecodedFrom(Fn3(), heads, 1) == [Code3()[0]];
    assert DecodedFrom(Fn3(), heads, 2) == [Code3()[0], Code3()[1]];
    assert DecodedFrom(Fn3(), heads, 3) == Code3();
  }

  lemma NoTables()
    ensures ContextOf([], Code3()).tables == map[] && ContextOf([], Code3()).callContinue == {}
    ensures Labels([], Code3()) == {}
  {
    var d := Code3();
    var heads := HeadSet(d);
    assert TablesFrom([], heads, d, 0) == map[];
    assert TablesFrom([], heads, d, 1) == map[];
    assert TablesFrom([], heads, d, 2) == map[];
    assert TablesFrom([], heads, d, 3) == map[];
    assert LabelsTo([], d, 0) == {} && LabelsTo([], d, 1) == {} && LabelsTo([], d, 2) == {} && LabelsTo([], d, 3) == {};
    assert CallContinue(d) == {};
  }

  lemma ItemsFine()
    ensures ItemOk(Code3(), 0) && ItemOk(Code3(), 1) && ItemOk(Code3(), 2)
    ensures Distinct(Code3())
  {
    hide Below, Labels, CallContinue;
  }

  lemma MeetsConditions()
    ensures SourceOk(Src3(), Text3())
  {
    hide ItemOk, Distinct, Decoded;
    Decodes();
    ItemsFine();
  }

  // ---- its runs ----

  ghost predicate Harmless(env: Env) {
    forall log, a, r, m :: env.ext(log, a, r, m) == Returned(r, m)
  }

  lemma Places()
    ensures Ascending({LR}) == [LR] && Ascending({PC}) == [PC] && Rank({PC}, PC) == 0 && Rank({LR}, LR) == 0
  {
    OneListed(LR);
    OneListed(PC);
  }

  /** The two statements of the conditional call. */
  function SetLink(): Stmt { SAssign(EReg(LR), EConst(0x1008)) }
  function CallOut(): Stmt { SCall(EConst(OUT)) }

  lemma Emitted(i: nat)
    requires i < 3
    ensures |Decoded(Fn3())| == 3
    ensures LineAt([], Fn3(), i) ==
            if i == 0 then Line(None, None, PushBody([LR]))
            else if i == 1 then Line(None, Some(NE), [SetLink(), CallOut()])
            else Line(None, None, PopMoves([PC]) + [SReturn])
  {
    hide Ascending, PushBody, PopMoves, Labels, ContextOf, Decoded;
    Decodes();
    NoTables();
    Places();
    ContextIs([], Code3());
  }

  lemma Lines()
    ensures ENTRY in Lifted(Src3()).fns && Lifted(Src3()).exts == {OUT} && OUT !in Lifted(Src3()).fns
    ensures var lines := Lifted(Src3()).fns[ENTRY];
            && |lines| == 3
            && lines[0] == Line(None, None, PushBody([LR]))
            && lines[1] == Line(None, Some(NE), [SetLink(), CallOut()])
            && lines[2] == Line(None, None, PopMoves([PC]) + [SReturn])
  {
    hide LineAt, Decoded, PushBody, PopMoves;
    Decodes();
    Emitted(0);
    Emitted(1);
    Emitted(2);
  }

  function AfterPush(h: Host): Host {
    h.(cpu := Pushed(h.cpu, {LR}))
  }

  /** The conditional call, to a function that changes nothing. */
  function AfterCall(h: Host): Host {
    if h.cpu.cpsr.z then h
    else
      var linked := SetReg(h, LR, 0x1008);
      linked.(log := h.log + [Event(OUT, linked.cpu.r, h.cpu.mem)])
  }

  lemma FirstLine(env: Env, fuel: nat, h: Host)
    requires FrameFits(h.cpu, {LR})
    ensures RunLine(Lifted(Src3()), env, fuel, Line(None, None, PushBody([LR])), h) == Trace(Next, AfterPush(h), [])
  {
    hide PushBody, DoAll, AllStraight, RunBody, FrameFits, Pushed;
    Places();
    PushRuns({LR}, h);
    RunsToEnd(Lifted(Src3()), env, fuel, PushBody([LR]), h);
  }

  lemma CallsOut(env: Env, fuel: nat, h: Host)
    requires Harmless(env)
    ensures Call(Lifted(Src3()), env, fuel, OUT, h)
            == Trace(Return, h.(log := h.log + [Event(OUT, h.cpu.r, h.cpu.mem)]), [])
  {
    hide RunLines, Lifted;
    Lines();
  }

  lemma SecondLine(env: Env, fuel: nat, h: Host)
    requires Harmless(env)
    ensures RunLine(Lifted(Src3()), env, fuel, Line(None, Some(NE), [SetLink(), CallOut()]), h)
            == Trace(Next, AfterCall(h), [])
  {
    hide Eval, DoAll, RunBody, Call, Lifted, Harmless;
    var p, linked := Lifted(Src3()), SetReg(h, LR, 0x1008);
    LinkRuns(0x1008, h);
    EvalConst(OUT, linked);
    CallsOut(env, fuel, linked);
    RunStraight(p, env, fuel, [SetLink()], [CallOut()], h);
    CallRuns(p, env, fuel, EConst(OUT), [], linked);
    assert [CallOut()] + [] == [CallOut()];
    assert [SetLink()] + [CallOut()] == [SetLink(), CallOut()];
  }

  lemma ThirdLine(env: Env, fuel: nat, h: Host) returns (h1: Host)
    ensures RunLine(Lifted(Src3()), env, fuel, Line(None, None, PopMoves([PC]) + [SReturn]), h) == Trace(Return, h1, [])
  {
    hide PopMoves, DoAll, AllStraight, RunBody;
    Places();
    PopMovesRun({PC}, h);
    RunsToEnd(Lifted(Src3()), env, fuel, PopMoves([PC]), h);
    h1 := DoAll(PopMoves([PC]), h);
  }

  /** A visit of the sample entered in h0. */
  function At(line: nat, h0: Host, h: Host): Visit {
    Visit(ENTRY, line, h0.cpu.r[LR], h.cpu, h.log)
  }

  lemma Finishes(env: Env, h: Host)
    requires Harmless(env) && FrameFits(h.cpu, {LR})
    ensures var t := Call(Lifted(Src3()), env, 3, ENTRY, h);
            var h1 := AfterPush(h);
            && t.out == Return
            && t.visits == [At(0, h, h), At(1, h, h1), At(2, h, AfterCall(h1))]
  {
    hide RunLine, PushBody, PopMoves, FrameFits, Lifted, AfterPush, AfterCall;
    Lines();
    var p, ret := Lifted(Src3()), h.cpu.r[LR];
    var h1 := AfterPush(h);
    var h2 := AfterCall(h1);
    FirstLine(env, 2, h);
    SecondLine(env, 1, h1);
    var h3 := ThirdLine(env, 0, h2);
    assert RunLines(p, env, 0, ENTRY, 2, ret, h2) == Trace(Return, h3, [At(2, h, h2)]);
    var t1 := RunLines(p, env, 1, ENTRY, 1, ret, h1);
    assert t1 == Trace(Return, h3, [At(1, h, h1), At(2, h, h2)]);
  }

  lemma FirstVisits(h: Host)
    requires FrameFits(h.cpu, {LR})
    ensures var h1 := AfterPush(h);
            && VisitOk(Src3(), At(0, h, h), false) && !NextStale(Src3(), At(0, h, h), false)
            && VisitOk(Src3(), At(1, h, h1), false) && !NextStale(Src3(), At(1, h, h1), false)
  {
    hide StoreBlock, R32, Ascending, Rank, Decoded, ContextOf, Labels, BlockAccessOk, Wrap;
    Decodes();
    NoTables();
  }

  lemma LastVisit(h: Host)
    requires FrameFits(h.cpu, {LR})
    ensures VisitOk(Src3(), At(2, h, AfterCall(AfterPush(h))), false)
  {
    hide BlockByte, R32, Ascending, Rank, Decoded, ContextOf, Labels, Wrap;
    Decodes();
    NoTables();
    Places();
    SavedWord({LR}, h.cpu, AfterCall(AfterPush(h)).cpu, LR);
  }

  /** Every run of the sample meets the hypotheses of the translation theorem. */
  lemma SampleIsCovered(env: Env, h: Host)
    requires Harmless(env) && FrameFits(h.cpu, {LR})
    ensures SourceOk(Src3(), Text3()) && ENTRY in Src3().fns
    ensures var t := Call(Lifted(Src3()), env, 3, ENTRY, h);
            t.out == Return && |t.visits| == 3 && Disciplined(Src3(), false, t.visits)
  {
    hide SourceOk, FrameFits, VisitOk, NextStale, Call, Lifted, AfterPush, AfterCall, Harmless;
    MeetsConditions();
    Finishes(env, h);
    FirstVisits(h);
    LastVisit(h);
    var visits := Call(Lifted(Src3()), env, 3, ENTRY, h).visits;
    assert Disciplined(Src3(), false, visits[3..]);
    assert Disciplined(Src3(), false, visits[2..]);
    assert Disciplined(Src3(), false, visits[1..]);
  }
}
