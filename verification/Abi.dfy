/** Save and restore: what an emitted push saves the matching pop brings back,
    and a call tree of such functions keeps r4-r11 and sp, as dispatch checks. */
module Abi {
  import opened Words
  import opened Shifts
  import opened Guest
  import opened Arm
  import opened CCode
  import opened Lift
  import opened BlockSim

  // ---- ranks in the two lists ----

  /** The list popped at the end: lr comes back as the program counter. */
  function Epilogue(regs: set<RegNo>): set<RegNo> {
    if LR in regs then regs - {LR} + {PC} else regs
  }

  lemma {:induction false} BelowSame(a: set<RegNo>, b: set<RegNo>, i: nat)
    requires i <= 16 && forall j: RegNo :: j < i ==> (j in a <==> j in b)
    ensures Below(a, i) == Below(b, i)
  {
    if i > 0 {
      BelowSame(a, b, i - 1);
    }
  }

  predicate Savable(regs: set<RegNo>) {
    SP !in regs && PC !in regs
  }

  /** The two lists put every register at the same place, and lr where the program counter is. */
  lemma SamePlaces(regs: set<RegNo>)
    requires Savable(regs)
    ensures Count(Epilogue(regs)) == Count(regs)
    ensures forall i: RegNo :: i < LR ==> Rank(Epilogue(regs), i) == Rank(regs, i)
    ensures LR in regs ==> Rank(Epilogue(regs), PC) == Rank(regs, LR)
  {
    var e := Epilogue(regs);
    assert forall j: RegNo :: j < LR ==> (j in e <==> j in regs);
    assert LR !in e && (PC in e <==> LR in regs);
    hide Epilogue, Below;
    forall i: RegNo | i < LR
      ensures Rank(e, i) == Rank(regs, i)
    {
      BelowSame(e, regs, i);
    }
    BelowSame(e, regs, LR);
    TopOfBelow(e);
    TopOfBelow(regs);
  }

  lemma TopOfBelow(regs: set<RegNo>)
    ensures |Below(regs, 15)| == |Below(regs, 14)| + (if LR in regs then 1 else 0)
    ensures |Below(regs, 16)| == |Below(regs, 15)| + (if PC in regs then 1 else 0)
  {
  }

  // ---- what a push leaves in memory ----

  lemma StoredWord(m: Mem, start: Word, regs: set<RegNo>, r: Regs, i: RegNo)
    requires i in regs && BlockAccessOk(m, start, Count(regs))
    ensures R32(StoreBlock(m, start, regs, r), Wrap(start + 4 * Rank(regs, i))) == r[i]
  {
    hide Ascending, Compose, ByteOf, Wrap;
    RankOf(regs, i);
    var k := Rank(regs, i);
    var a := Wrap(start + 4 * k);
    var m1 := StoreBlock(m, start, regs, r);
    forall x | a <= x < a + 4
      ensures m1[x] == ByteOf(r[i], x - a)
    {
      WordOfByte(start, k, x);
    }
    ComposeSplits(r[i]);
  }

  /** The context after the emitted push. */
  function Pushed(c: Cpu, regs: set<RegNo>): Cpu {
    var start := Wrap(c.r[SP] - 4 * Count(regs));
    c.(r := c.r[SP := start], mem := StoreBlock(c.mem, start, regs, c.r))
  }

  predicate FrameFits(c: Cpu, regs: set<RegNo>) {
    BlockAccessOk(c.mem, Wrap(c.r[SP] - 4 * Count(regs)), Count(regs))
  }

  lemma PushRuns(regs: set<RegNo>, h: Host)
    requires Savable(regs) && FrameFits(h.cpu, regs)
    ensures AllStraight(PushBody(Ascending(regs)))
    ensures DoAll(PushBody(Ascending(regs)), h) == h.(cpu := Pushed(h.cpu, regs))
  {
    hide Ascending, StoreBlock, PushBody, DoAll, BlockAccessOk, Wrap;
    PushBodyRuns(regs, h);
    var start := Wrap(h.cpu.r[SP] - 4 * Count(regs));
    StoreIgnores(h.cpu.mem, start, regs, h.cpu.r, SP, start);
  }

  // ---- save and restore ----

  /** Since the push: sp is back, and the saved words are unchanged. */
  predicate FrameKept(pushed: Cpu, regs: set<RegNo>, c: Cpu) {
    && c.r[SP] == pushed.r[SP]
    && forall k: nat :: k < Count(regs) ==>
         R32(c.mem, Wrap(c.r[SP] + 4 * k)) == R32(pushed.mem, Wrap(c.r[SP] + 4 * k))
  }

  lemma SavedWord(regs: set<RegNo>, entry: Cpu, c: Cpu, i: RegNo)
    requires Savable(regs) && FrameFits(entry, regs) && FrameKept(Pushed(entry, regs), regs, c) && i in regs
    ensures R32(c.mem, Wrap(c.r[SP] + 4 * Rank(regs, i))) == entry.r[i]
  {
    hide StoreBlock, R32, Rank, Ascending, BlockAccessOk;
    var start := Wrap(entry.r[SP] - 4 * Count(regs));
    RankOf(regs, i);
    StoredWord(entry.mem, start, regs, entry.r, i);
  }

  lemma SpBack(sp: Word, n: nat)
    ensures Wrap(Wrap(sp - 4 * n) + 4 * n) == sp
  {
    var low: int, up: int := sp - 4 * n, 4 * n;
    assert low + up == sp;
    assert Wrap(sp) == sp;
    hide Wrap;
    WrapAdds(low, up);
  }

  lemma PoppedReg(m: Mem, regs: set<RegNo>, r: Regs, i: RegNo)
    ensures Popped(m, regs, r)[i] ==
            if i == SP then Wrap(r[SP] + 4 * Count(regs))
            else if i in regs && i != PC then R32(m, Wrap(r[SP] + 4 * Rank(regs, i))) else r[i]
  {
    hide R32, Rank, Ascending;
  }

  /** A listed register comes back, any other is left alone. */
  lemma PoppedBack(regs: set<RegNo>, entry: Cpu, c: Cpu, i: RegNo)
    requires Savable(regs) && FrameFits(entry, regs) && FrameKept(Pushed(entry, regs), regs, c)
    ensures Popped(c.mem, Epilogue(regs), c.r)[i] ==
            if i == SP || (i in regs && i != LR) then entry.r[i] else c.r[i]
  {
    hide R32, Rank, Ascending, Popped, Epilogue, FrameKept, FrameFits, Pushed, Wrap, Count;
    InEpilogue(regs, i);
    SamePlaces(regs);
    PoppedReg(c.mem, Epilogue(regs), c.r, i);
    KeptSp(regs, entry, c);
    if i in regs {
      SavedWord(regs, entry, c, i);
    }
  }

  lemma InEpilogue(regs: set<RegNo>, i: RegNo)
    ensures i < LR ==> (i in Epilogue(regs) <==> i in regs)
    ensures LR !in Epilogue(regs)
  {
  }

  /** For any register list without sp: the emitted push, then any code that restores
      sp and leaves the saved words unchanged, then the emitted pop of that list. Every
      listed register but lr has its entry value again, sp is as on entry, the popped
      return address is the entry lr, and nothing else changes. */
  lemma SaveRestore(regs: set<RegNo>, entry: Host, h: Host)
    requires SP !in regs && PC !in regs && FrameFits(entry.cpu, regs)
    requires FrameKept(DoAllStraight(PushBody(Ascending(regs)), entry).cpu, regs, h.cpu)
    ensures AllStraight(PopMoves(Ascending(Epilogue(regs))))
    ensures var out := DoAll(PopMoves(Ascending(Epilogue(regs))), h);
            && (forall i :: i in regs && i != LR ==> out.cpu.r[i] == entry.cpu.r[i])
            && out.cpu.r[SP] == entry.cpu.r[SP]
            && (forall i: RegNo :: (i !in regs || i == LR) && i != SP ==> out.cpu.r[i] == h.cpu.r[i])
            && out == h.(cpu := h.cpu.(r := out.cpu.r))
    ensures LR in regs ==>
              R32(h.cpu.mem, Wrap(h.cpu.r[SP] + 4 * Rank(Epilogue(regs), PC))) == entry.cpu.r[LR]
  {
    hide Ascending, DoAll, R32, PopMoves, Rank, FrameKept, FrameFits, PushBody, AllStraight, Popped, Pushed, Wrap,
         Count, Epilogue;
    PushRuns(regs, entry);
    SpNotBack(regs);
    SamePlaces(regs);
    PopMovesRun(Epilogue(regs), h);
    forall i: RegNo | true
      ensures Popped(h.cpu.mem, Epilogue(regs), h.cpu.r)[i] ==
              if i == SP || (i in regs && i != LR) then entry.cpu.r[i] else h.cpu.r[i]
    {
      PoppedBack(regs, entry.cpu, h.cpu, i);
    }
    if LR in regs {
      SavedWord(regs, entry.cpu, h.cpu, LR);
    }
  }

  lemma SpNotBack(regs: set<RegNo>)
    requires SP !in regs
    ensures SP !in Epilogue(regs)
  {
  }

  lemma KeptSp(regs: set<RegNo>, entry: Cpu, c: Cpu)
    requires FrameKept(Pushed(entry, regs), regs, c)
    ensures Wrap(c.r[SP] + 4 * Count(regs)) == entry.r[SP]
  {
    SpBack(entry.r[SP], Count(regs));
  }

  function DoAllStraight(body: seq<Stmt>, h: Host): Host {
    if AllStraight(body) then DoAll(body, h) else h
  }
}
