/** Block transfers: the emitted sequence of single moves has the effect of the
    simultaneous transfer, each register at the address given by its rank. */
module BlockSim {
  import opened Words
  import opened Shifts
  import opened Guest
  import opened Arm
  import opened CCode
  import opened Lift
  import opened Simulation
  import opened MemorySim

  // ---- ranks ----

  lemma {:induction false} BelowPrefix(regs: set<RegNo>, i: nat, j: nat)
    requires i <= j <= 16
    ensures |Below(regs, i)| <= |Below(regs, j)|
    ensures Below(regs, i) == Below(regs, j)[..|Below(regs, i)|]
  {
    if i < j {
      BelowPrefix(regs, i, j - 1);
    }
  }

  /** The register of rank k is the k-th in ascending order. */
  lemma RankOf(regs: set<RegNo>, i: RegNo)
    requires i in regs
    ensures Rank(regs, i) < Count(regs) && Ascending(regs)[Rank(regs, i)] == i
  {
    BelowPrefix(regs, i + 1, 16);
    assert Below(regs, i + 1) == Below(regs, i) + [i];
  }

  lemma {:induction false} RankAt(regs: set<RegNo>, j: nat, k: nat)
    requires j <= 16 && k < |Below(regs, j)|
    ensures Rank(regs, Below(regs, j)[k]) == k
  {
    if k < |Below(regs, j - 1)| {
      RankAt(regs, j - 1, k);
      assert Below(regs, j)[k] == Below(regs, j - 1)[k];
    }
  }

  lemma InAscending(regs: set<RegNo>, i: RegNo)
    ensures i in Ascending(regs) <==> i in regs
  {
    if i in regs {
      RankOf(regs, i);
    }
  }

  lemma {:induction false} OneBelow(i: RegNo, j: nat)
    requires j <= 16
    ensures Below({i}, j) == if i < j then [i] else []
  {
    if j > 0 {
      OneBelow(i, j - 1);
    }
  }

  lemma OneListed(i: RegNo)
    ensures Ascending({i}) == [i] && Count({i}) == 1 && Rank({i}, i) == 0
  {
    OneBelow(i, 16);
    OneBelow(i, i);
  }

  // ---- the first k transfers ----

  /** The registers after the k lowest have been loaded. */
  function Loaded(m: Mem, start: Word, regs: set<RegNo>, r: Regs, k: nat): Regs {
    seq(16, i requires 0 <= i < 16 =>
      if i in regs && i != PC && Rank(regs, i) < k then R32(m, Wrap(start + 4 * Rank(regs, i))) else r[i])
  }

  lemma LoadedStep(m: Mem, start: Word, regs: set<RegNo>, r: Regs, k: nat)
    requires k < Count(regs)
    ensures var n := Ascending(regs)[k];
            Loaded(m, start, regs, r, k + 1) ==
            if n == PC then Loaded(m, start, regs, r, k)
            else Loaded(m, start, regs, r, k)[n := R32(m, Wrap(start + 4 * k))]
  {
    hide R32;
    var n := Ascending(regs)[k];
    RankAt(regs, 16, k);
    forall i: RegNo | i in regs && i != n
      ensures Rank(regs, i) != k
    {
      RankOf(regs, i);
    }
  }

  lemma LoadedAll(m: Mem, start: Word, regs: set<RegNo>, r: Regs)
    ensures Loaded(m, start, regs, r, 0) == r
    ensures Loaded(m, start, regs, r, Count(regs)) == LoadBlock(m, start, regs, r)
  {
    hide R32;
    forall i: RegNo | i in regs
      ensures Rank(regs, i) < Count(regs)
    {
      RankOf(regs, i);
    }
  }

  function StoredByte(m: Mem, start: Word, regs: set<RegNo>, r: Regs, k: nat, x: nat): Byte
    requires k <= Count(regs) && x < |m|
  {
    var d := Wrap(x - start);
    if d / 4 < k then ByteOf(r[Ascending(regs)[d / 4]], d % 4) else m[x]
  }

  /** The memory after the k lowest registers have been stored. */
  function Stored(m: Mem, start: Word, regs: set<RegNo>, r: Regs, k: nat): Mem
    requires k <= Count(regs)
  {
    seq(|m|, x requires 0 <= x < |m| => StoredByte(m, start, regs, r, k, x))
  }

  /** Byte x lies in word k of the block exactly if its distance from the start says so. */
  lemma WordOfByte(start: Word, k: nat, x: Word)
    requires start % 4 == 0 && k < 16
    ensures var a := Wrap(start + 4 * k);
            && (Wrap(x - start) / 4 == k <==> a <= x < a + 4)
            && (a <= x < a + 4 ==> Wrap(x - start) % 4 == x - a)
            && (Wrap(x - start) / 4 < k + 1 <==> Wrap(x - start) / 4 < k || Wrap(x - start) / 4 == k)
  {
    hide Wrap;
    WrapNear(start + 4 * k);
    WrapNear(x - start);
    var s := start / 4;
    assert start == 4 * s;
    var a, d := Wrap(start + 4 * k), Wrap(x - start);
    assert d / 4 == k <==> 4 * k <= d < 4 * k + 4;
    assert a == 4 * (s + k) || a == 4 * (s + k - 0x4000_0000);
    assert d == 4 * (d / 4) + d % 4;
  }

  lemma StoredStep(m: Mem, start: Word, regs: set<RegNo>, r: Regs, k: nat)
    requires k < Count(regs) && BlockAccessOk(m, start, Count(regs))
    ensures W32(Stored(m, start, regs, r, k), Wrap(start + 4 * k), r[Ascending(regs)[k]])
            == Stored(m, start, regs, r, k + 1)
  {
    hide ByteOf, Wrap, Ascending;
    var a := Wrap(start + 4 * k);
    assert InWindow(m, a, 4);
    var m1 := W32(Stored(m, start, regs, r, k), a, r[Ascending(regs)[k]]);
    var m2 := Stored(m, start, regs, r, k + 1);
    forall x: nat | x < |m|
      ensures m1[x] == m2[x]
    {
      WordOfByte(start, k, x);
    }
  }

  lemma StoredAll(m: Mem, start: Word, regs: set<RegNo>, r: Regs)
    ensures Stored(m, start, regs, r, 0) == m
    ensures Stored(m, start, regs, r, Count(regs)) == StoreBlock(m, start, regs, r)
  {
    hide ByteOf, Wrap, Ascending;
    var m0 := Stored(m, start, regs, r, 0);
    forall x | 0 <= x < |m|
      ensures m0[x] == m[x]
    {
    }
  }

  /** Storing reads only listed registers. */
  lemma StoreIgnores(m: Mem, start: Word, regs: set<RegNo>, r: Regs, n: RegNo, v: Word)
    requires n !in regs
    ensures StoreBlock(m, start, regs, r[n := v]) == StoreBlock(m, start, regs, r)
  {
    hide ByteOf, Wrap;
    forall k | 0 <= k < Count(regs)
      ensures Ascending(regs)[k] in regs
    {
    }
  }

  // ---- push and pop ----

  lemma StackAddr(h: Host, d: nat)
    ensures Eval(EBin(CAdd, EReg(SP), EConst(Wrap(d))), h) == Wrap(h.cpu.r[SP] + d)
  {
    hide Eval, MulRes, Bitwise;
    EvalBin(CAdd, EReg(SP), EConst(Wrap(d)), h);
    EvalReg(SP, 0, h);
    EvalConst(Wrap(d), h);
    WrapAdds(h.cpu.r[SP], d);
  }

  lemma LoadOne(n: RegNo, a: Expr, h: Host)
    ensures var st := SAssign(EReg(n), ELoad(Word4, false, a));
            AllStraight([st]) && DoAll([st], h) == SetReg(h, n, R32(h.cpu.mem, Eval(a, h)))
  {
    hide Eval, R32;
    EvalLoad(Word4, false, a, h);
    DoOne(SAssign(EReg(n), ELoad(Word4, false, a)), h);
  }

  lemma StoreOne(n: RegNo, a: Expr, h: Host)
    ensures var st := SStore(Word4, a, EReg(n));
            AllStraight([st])
            && DoAll([st], h) == h.(cpu := h.cpu.(mem := W32(h.cpu.mem, Eval(a, h), h.cpu.r[n])))
  {
    hide Eval, W32;
    assert Eval(EReg(n), h) == h.cpu.r[n] by { EvalPlain(n, h); }
    DoOne(SStore(Word4, a, EReg(n)), h);
  }

  lemma EvalPlain(n: RegNo, h: Host)
    ensures Eval(EReg(n), h) == h.cpu.r[n]
  {
  }

  lemma {:induction false} PushStoresRun(regs: set<RegNo>, k: nat, h: Host)
    requires k <= Count(regs) && BlockAccessOk(h.cpu.mem, h.cpu.r[SP], Count(regs))
    ensures var body := PushStores(Ascending(regs), k);
            && AllStraight(body)
            && DoAll(body, h) == h.(cpu := h.cpu.(mem := Stored(h.cpu.mem, h.cpu.r[SP], regs, h.cpu.r, k)))
  {
    hide Eval, Stored, Ascending, W32, Do;
    StoredAll(h.cpu.mem, h.cpu.r[SP], regs, h.cpu.r);
    if k > 0 {
      PushStoresRun(regs, k - 1, h);
      var l := Ascending(regs);
      var a := EBin(CAdd, EReg(SP), EConst(Wrap(4 * (k - 1))));
      var h1 := DoAll(PushStores(l, k - 1), h);
      StackAddr(h1, 4 * (k - 1));
      StoreOne(l[k - 1], a, h1);
      StoredStep(h.cpu.mem, h.cpu.r[SP], regs, h.cpu.r, k - 1);
      DoAllConcat(PushStores(l, k - 1), [SStore(Word4, a, EReg(l[k - 1]))], h);
    }
  }

  lemma LoadedKeeps(m: Mem, start: Word, regs: set<RegNo>, r: Regs, k: nat, n: RegNo)
    requires n !in regs || n == PC
    ensures Loaded(m, start, regs, r, k)[n] == r[n]
  {
    hide R32;
  }

  lemma {:induction false} PopLoadsRun(regs: set<RegNo>, k: nat, h: Host)
    requires k <= Count(regs) && SP !in regs
    ensures var body := PopLoads(Ascending(regs), k);
            && AllStraight(body)
            && DoAll(body, h) == h.(cpu := h.cpu.(r := Loaded(h.cpu.mem, h.cpu.r[SP], regs, h.cpu.r, k)))
  {
    hide Eval, Ascending, R32, Do, Loaded;
    LoadedAll(h.cpu.mem, h.cpu.r[SP], regs, h.cpu.r);
    if k > 0 {
      PopLoadsRun(regs, k - 1, h);
      var l := Ascending(regs);
      LoadedStep(h.cpu.mem, h.cpu.r[SP], regs, h.cpu.r, k - 1);
      if l[k - 1] != PC {
        var a := EBin(CAdd, EReg(SP), EConst(Wrap(4 * (k - 1))));
        var h1 := DoAll(PopLoads(l, k - 1), h);
        LoadedKeeps(h.cpu.mem, h.cpu.r[SP], regs, h.cpu.r, k - 1, SP);
        StackAddr(h1, 4 * (k - 1));
        LoadOne(l[k - 1], a, h1);
        DoAllConcat(PopLoads(l, k - 1), [SAssign(EReg(l[k - 1]), ELoad(Word4, false, a))], h);
      } else {
        assert PopLoads(l, k) == PopLoads(l, k - 1);
      }
    }
  }

  /** The emitted push stores the registers as they are once sp is lowered. */
  lemma PushBodyRuns(regs: set<RegNo>, h: Host)
    requires BlockAccessOk(h.cpu.mem, Wrap(h.cpu.r[SP] - 4 * Count(regs)), Count(regs))
    ensures var start := Wrap(h.cpu.r[SP] - 4 * Count(regs));
            var r := h.cpu.r[SP := start];
            && AllStraight(PushBody(Ascending(regs)))
            && DoAll(PushBody(Ascending(regs)), h)
               == h.(cpu := h.cpu.(r := r, mem := StoreBlock(h.cpu.mem, start, regs, r)))
  {
    hide Eval, Ascending, Stored, StoreBlock, Do, PushStores;
    var n := Count(regs);
    var start := Wrap(h.cpu.r[SP] - 4 * n);
    var st := SAssign(EReg(SP), EBin(CSub, EReg(SP), EConst(Wrap(4 * n))));
    StackDrop(h, 4 * n);
    DoOne(st, h);
    var h1 := SetReg(h, SP, start);
    PushStoresRun(regs, n, h1);
    StoredAll(h.cpu.mem, start, regs, h1.cpu.r);
    DoAllConcat([st], PushStores(Ascending(regs), n), h);
  }

  lemma PushSim(regs: set<RegNo>, h: Host, s: State, stale: bool)
    requires Agree(h, s, stale) && Predictable(Push(regs)) && Liftable(Push(regs))
    requires AccessOk(Push(regs), s.pc, s.cpu.r, s.cpu.mem)
    ensures var body := PushBody(Ascending(regs));
            && AllStraight(body) && ExecBlock(s, false, DB, SP, true, regs).Some?
            && Agree(DoAll(body, h), ExecBlock(s, false, DB, SP, true, regs).value, stale)
            && ExecBlock(s, false, DB, SP, true, regs).value.pc == Wrap(s.pc + 4)
  {
    hide Ascending, StoreBlock, PushBody, DoAll, LoadBlock, BlockAccessOk, Wrap;
    PushBodyRuns(regs, h);
    var start := Wrap(h.cpu.r[SP] - 4 * Count(regs));
    StoreIgnores(h.cpu.mem, start, regs, h.cpu.r, SP, start);
  }

  lemma StackDrop(h: Host, d: nat)
    ensures var st := SAssign(EReg(SP), EBin(CSub, EReg(SP), EConst(Wrap(d))));
            IsStraight(st) && Do(st, h) == SetReg(h, SP, Wrap(h.cpu.r[SP] - d))
  {
    hide Eval, MulRes, Bitwise;
    EvalBin(CSub, EReg(SP), EConst(Wrap(d)), h);
    EvalPlain(SP, h);
    EvalConst(Wrap(d), h);
    WrapAdds(h.cpu.r[SP], d);
  }

  /** The registers after a pop: the listed ones from the stack, and sp above them. */
  function Popped(m: Mem, regs: set<RegNo>, r: Regs): Regs {
    LoadBlock(m, r[SP], regs, r)[SP := Wrap(r[SP] + 4 * Count(regs))]
  }

  lemma PopMovesRun(regs: set<RegNo>, h: Host)
    requires SP !in regs
    ensures var body := PopMoves(Ascending(regs));
            && AllStraight(body)
            && DoAll(body, h) == h.(cpu := h.cpu.(r := Popped(h.cpu.mem, regs, h.cpu.r)))
  {
    hide Eval, Ascending, Loaded, LoadBlock, PopLoads;
    var n := Count(regs);
    PopLoadsRun(regs, n, h);
    LoadedAll(h.cpu.mem, h.cpu.r[SP], regs, h.cpu.r);
    LoadedKeeps(h.cpu.mem, h.cpu.r[SP], regs, h.cpu.r, n, SP);
    var h1 := DoAll(PopLoads(Ascending(regs), n), h);
    StackAddr(h1, 4 * n);
    var st := SAssign(EReg(SP), EBin(CAdd, EReg(SP), EConst(Wrap(4 * n))));
    DoOne(st, h1);
    DoAllConcat(PopLoads(Ascending(regs), n), [st], h);
  }

  lemma PopSim(regs: set<RegNo>, h: Host, s: State, stale: bool)
    requires Agree(h, s, stale) && Predictable(Pop(regs))
    ensures var body := PopMoves(Ascending(regs));
            && AllStraight(body) && ExecBlock(s, true, IA, SP, true, regs).Some?
            && Agree(DoAll(body, h), ExecBlock(s, true, IA, SP, true, regs).value, stale)
            && (PC !in regs ==> ExecBlock(s, true, IA, SP, true, regs).value.pc == Wrap(s.pc + 4))
  {
    hide Ascending, LoadBlock, PopMoves, DoAll, R32, StoreBlock;
    PopMovesRun(regs, h);
  }

  // ---- ldm and stm ----

  lemma BaseAddr(off: int, h: Host)
    ensures Eval(BaseOffE(off), h) == Wrap(h.base + off)
  {
    hide Eval, MulRes, Bitwise, PlusE;
    EvalBase(h);
    PlusAgrees(EBase, off, h);
  }

  lemma EvalBase(h: Host)
    ensures Eval(EBase, h) == h.base
  {
  }

  lemma StartOf(mode: BlockMode, base: Word, n: nat, d: int)
    ensures Wrap(base + Low(mode, n) + d) == Wrap(BlockStart(mode, base, n) + d)
  {
    WrapAdds(base + Low(mode, n), d);
  }

  lemma {:induction false} BlockStoresRun(mode: BlockMode, regs: set<RegNo>, k: nat, h: Host)
    requires k <= Count(regs) && BlockAccessOk(h.cpu.mem, BlockStart(mode, h.base, Count(regs)), Count(regs))
    ensures var body := BlockMoves(false, Ascending(regs), Low(mode, Count(regs)), k);
            var start := BlockStart(mode, h.base, Count(regs));
            && AllStraight(body)
            && DoAll(body, h) == h.(cpu := h.cpu.(mem := Stored(h.cpu.mem, start, regs, h.cpu.r, k)))
  {
    hide Eval, Stored, Ascending, W32, Do, BlockStart, BaseOffE, Low;
    var n := Count(regs);
    var low, start := Low(mode, n), BlockStart(mode, h.base, n);
    StoredAll(h.cpu.mem, start, regs, h.cpu.r);
    if k > 0 {
      BlockStoresRun(mode, regs, k - 1, h);
      var l := Ascending(regs);
      var a := BaseOffE(low + 4 * (k - 1));
      var moves := BlockMoves(false, l, low, k - 1);
      var h1 := DoAll(moves, h);
      BaseAddr(low + 4 * (k - 1), h1);
      StartOf(mode, h.base, n, 4 * (k - 1));
      StoreOne(l[k - 1], a, h1);
      StoredStep(h.cpu.mem, start, regs, h.cpu.r, k - 1);
      DoAllConcat(moves, [SStore(Word4, a, EReg(l[k - 1]))], h);
    }
  }

  lemma {:induction false} BlockLoadsRun(mode: BlockMode, regs: set<RegNo>, k: nat, h: Host)
    requires k <= Count(regs)
    ensures var body := BlockMoves(true, Ascending(regs), Low(mode, Count(regs)), k);
            var start := BlockStart(mode, h.base, Count(regs));
            && AllStraight(body)
            && DoAll(body, h) == h.(cpu := h.cpu.(r := Loaded(h.cpu.mem, start, regs, h.cpu.r, k)))
  {
    hide Eval, Loaded, Ascending, R32, Do, BlockStart, BaseOffE, Low, Wrap, Rank;
    var n := Count(regs);
    var low, start := Low(mode, n), BlockStart(mode, h.base, n);
    LoadedAll(h.cpu.mem, start, regs, h.cpu.r);
    if k > 0 {
      BlockLoadsRun(mode, regs, k - 1, h);
      var l := Ascending(regs);
      var moves := BlockMoves(true, l, low, k - 1);
      LoadedStep(h.cpu.mem, start, regs, h.cpu.r, k - 1);
      if l[k - 1] != PC {
        var a := BaseOffE(low + 4 * (k - 1));
        var h1 := DoAll(moves, h);
        BaseAddr(low + 4 * (k - 1), h1);
        StartOf(mode, h.base, n, 4 * (k - 1));
        LoadOne(l[k - 1], a, h1);
        DoAllConcat(moves, [SAssign(EReg(l[k - 1]), ELoad(Word4, false, a))], h);
      } else {
        assert BlockMoves(true, l, low, k) == moves;
      }
    }
  }

  lemma BlockUpdateIs(mode: BlockMode, rn: RegNo, n: nat, pc: Word, h: Host)
    requires rn != PC
    ensures var body := BlockUpdate(mode, rn, true, n, pc);
            && AllStraight(body)
            && DoAll(body, h) == SetReg(h, rn, if Low(mode, n) >= 0 then Wrap(h.base + 4 * n) else Wrap(h.base - 4 * n))
  {
    hide Eval, MulRes, Bitwise, Wrap, DoAll, AllStraight, Low;
    var op := if Low(mode, n) >= 0 then CAdd else CSub;
    EvalReg(rn, pc, h);
    EvalBin(op, EBase, EConst(Wrap(4 * n)), h);
    EvalBase(h);
    EvalConst(Wrap(4 * n), h);
    WrapAdds(h.base, 4 * n);
    AssignRuns(rn, EBin(op, EBase, EConst(Wrap(4 * n))), h);
  }

  lemma BlockUpdateRuns(mode: BlockMode, rn: RegNo, wb: bool, n: nat, pc: Word, h: Host)
    requires rn != PC && n > 0 && (wb && mode == DA ==> n != 1)
    ensures var body := BlockUpdate(mode, rn, wb, n, pc);
            && AllStraight(body)
            && DoAll(body, h) == if wb then SetReg(h, rn, BlockBase(mode, h.base, n)) else h
  {
    hide Wrap, Eval, MulRes, Bitwise, Do;
    if wb {
      BlockUpdateIs(mode, rn, n, pc, h);
    }
  }

  /** Registers and memory after a block transfer, as ARM defines them. */
  function Transferred(c: Cpu, load: bool, mode: BlockMode, rn: RegNo, wb: bool, regs: set<RegNo>): Cpu
    requires rn != PC
  {
    var n, base := Count(regs), c.r[rn];
    var start := BlockStart(mode, base, n);
    var r := if load then LoadBlock(c.mem, start, regs, c.r) else c.r;
    c.(r := if wb then r[rn := BlockBase(mode, base, n)] else r,
       mem := if load then c.mem else StoreBlock(c.mem, start, regs, c.r))
  }

  lemma CountPositive(regs: set<RegNo>)
    requires regs != {}
    ensures Count(regs) > 0
  {
    var i :| i in regs;
    RankOf(regs, i);
  }

  lemma BlockMovesRun(load: bool, mode: BlockMode, regs: set<RegNo>, h: Host)
    requires BlockAccessOk(h.cpu.mem, BlockStart(mode, h.base, Count(regs)), Count(regs))
    ensures var body := BlockMoves(load, Ascending(regs), Low(mode, Count(regs)), Count(regs));
            var start := BlockStart(mode, h.base, Count(regs));
            && AllStraight(body)
            && DoAll(body, h) == h.(cpu := h.cpu.(
                 r := if load then LoadBlock(h.cpu.mem, start, regs, h.cpu.r) else h.cpu.r,
                 mem := if load then h.cpu.mem else StoreBlock(h.cpu.mem, start, regs, h.cpu.r)))
  {
    hide Ascending, Loaded, LoadBlock, Stored, StoreBlock, BlockStart, BlockMoves, DoAll, Low;
    var start := BlockStart(mode, h.base, Count(regs));
    LoadedAll(h.cpu.mem, start, regs, h.cpu.r);
    StoredAll(h.cpu.mem, start, regs, h.cpu.r);
    if load {
      BlockLoadsRun(mode, regs, Count(regs), h);
    } else {
      BlockStoresRun(mode, regs, Count(regs), h);
    }
  }

  /** For every register list and every mode, the sorted, snapshot-based sequence
      is the simultaneous transfer, with the right writeback and nothing else. */
  lemma BlockTransferCorrect(load: bool, mode: BlockMode, rn: RegNo, wb: bool, regs: set<RegNo>, pc: Word, h: Host)
    requires Predictable(Block(load, mode, rn, wb, regs)) && Liftable(Block(load, mode, rn, wb, regs))
    requires AccessOk(Block(load, mode, rn, wb, regs), pc, h.cpu.r, h.cpu.mem)
    ensures var body := BlockStraight(load, mode, rn, wb, Ascending(regs), pc);
            && AllStraight(body)
            && DoAll(body, h) == h.(cpu := Transferred(h.cpu, load, mode, rn, wb, regs), base := h.cpu.r[rn])
  {
    hide Eval, Ascending, LoadBlock, StoreBlock, BlockStart, BlockMoves, BlockBase, BlockUpdate, Low, DoAll;
    var n := Count(regs);
    CountPositive(regs);
    EvalReg(rn, pc, h);
    DoOne(SBase(RegE(rn, pc)), h);
    var h1 := h.(base := h.cpu.r[rn]);
    BlockMovesRun(load, mode, regs, h1);
    var moves := BlockMoves(load, Ascending(regs), Low(mode, n), n);
    var h2 := DoAll(moves, h1);
    BlockUpdateRuns(mode, rn, wb, n, pc, h2);
    DoAllConcat([SBase(RegE(rn, pc))], moves, h);
    DoAllConcat([SBase(RegE(rn, pc))] + moves, BlockUpdate(mode, rn, wb, n, pc), h);
  }

  lemma BlockInsSim(load: bool, mode: BlockMode, rn: RegNo, wb: bool, regs: set<RegNo>, h: Host, s: State, stale: bool)
    requires Agree(h, s, stale)
    requires Predictable(Block(load, mode, rn, wb, regs)) && Liftable(Block(load, mode, rn, wb, regs))
    requires AccessOk(Block(load, mode, rn, wb, regs), s.pc, s.cpu.r, s.cpu.mem)
    ensures var body := BlockStraight(load, mode, rn, wb, Ascending(regs), s.pc);
            && AllStraight(body) && ExecBlock(s, load, mode, rn, wb, regs).Some?
            && Agree(DoAll(body, h), ExecBlock(s, load, mode, rn, wb, regs).value, stale)
            && (!(load && PC in regs) ==> ExecBlock(s, load, mode, rn, wb, regs).value.pc == Wrap(s.pc + 4))
  {
    hide Ascending, LoadBlock, StoreBlock, BlockStart, BlockStraight, BlockBase, DoAll, R32;
    BlockTransferCorrect(load, mode, rn, wb, regs, s.pc, h);
  }
}
