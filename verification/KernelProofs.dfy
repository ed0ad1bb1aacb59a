/** Leaves and cleanup over every nested guest program. */
module KernelProofs {
  import opened Words
  import opened HeapModel
  import opened HeapHistory
  import opened KernelModel

  // ---- unwinding ----

  /** The frees of an unwind: top entry first, null entries skipped. */
  function Frees(entries: seq<Word>): seq<HeapOp> {
    if entries == [] then []
    else
      var top := entries[|entries| - 1];
      (if top == 0 then [] else [OpFree(top)]) + Frees(entries[..|entries| - 1])
  }

  lemma {:induction false} RunOpsConcat(h: HeapModel.Heap, x: seq<HeapOp>, y: seq<HeapOp>)
    ensures RunOps(h, x + y).heap == RunOps(RunOps(h, x).heap, y).heap
    ensures RunOps(h, x + y).ptrs == RunOps(h, x).ptrs + RunOps(RunOps(h, x).heap, y).ptrs
    decreases |x|
  {
    hide Apply;
    if x == [] {
      assert x + y == y;
      assert [] + RunOps(h, y).ptrs == RunOps(h, y).ptrs;
    } else {
      assert (x + y)[1..] == x[1..] + y;
      RunOpsConcat(Apply(h, x[0]).heap, x[1..], y);
    }
  }

  lemma OneOp(h: HeapModel.Heap, op: HeapOp)
    ensures RunOps(h, [op]) == History(Apply(h, op).heap, [Apply(h, op).ptr])
  {
    hide Apply;
    var r := Apply(h, op);
    assert [op][1..] == [];
    assert RunOps(r.heap, []) == History(r.heap, []);
    assert [r.ptr] + [] == [r.ptr];
  }

  lemma NoOps(h: HeapModel.Heap)
    ensures RunOps(h, []).heap == h
  {
  }

  function Min(a: nat, b: nat): nat {
    if a < b then a else b
  }

  /** k after the heap operations ops, with the cleanup stack cut to n entries. */
  function Cut(k: Kernel, n: nat, ops: seq<HeapOp>): Kernel
    requires n <= |k.cleanup|
  {
    k.(cleanup := k.cleanup[..n], heap := RunOps(k.heap, ops).heap, log := k.log + ops)
  }

  lemma CutNothing(k: Kernel)
    ensures Cut(k, |k.cleanup|, Frees(k.cleanup[|k.cleanup|..])) == k
  {
    hide RunOps;
    assert k.cleanup[..|k.cleanup|] == k.cleanup && k.log + [] == k.log;
    NoOps(k.heap);
  }

  /** Freeing the top entry, then the others above n, is freeing all of them. */
  lemma FreesTop(entries: seq<Word>, n: nat)
    requires n < |entries|
    ensures var top, rest := entries[|entries| - 1], entries[..|entries| - 1];
            && Frees(entries[n..]) == (if top == 0 then [] else [OpFree(top)]) + Frees(rest[n..])
            && rest[..n] == entries[..n]
  {
    assert entries[n..][..|entries| - 1 - n] == entries[..|entries| - 1][n..];
  }

  /** One turn of an unwind: pop the top entry and free it. */
  function Dropped(k: Kernel): Kernel {
    Destroy(Popped(k), Top(k))
  }

  lemma CutTurn(k: Kernel, n: nat)
    requires n < |k.cleanup|
    ensures n <= |Dropped(k).cleanup|
    ensures Cut(Dropped(k), n, Frees(Dropped(k).cleanup[n..])) == Cut(k, n, Frees(k.cleanup[n..]))
  {
    hide Apply, RunOps, Frees;
    var top, fs := Top(k), Frees(k.cleanup[..|k.cleanup| - 1][n..]);
    FreesTop(k.cleanup, n);
    if top != 0 {
      OneOp(k.heap, OpFree(top));
      RunOpsConcat(k.heap, [OpFree(top)], fs);
      assert k.log + [OpFree(top)] + fs == k.log + ([OpFree(top)] + fs);
    } else {
      assert [] + fs == fs;
    }
  }

  lemma UnwindTurn(k: Kernel, level: nat)
    ensures UnwindTo(k, level) == if |k.cleanup| <= level then k else UnwindTo(Dropped(k), level)
    ensures |k.cleanup| > 0 ==> |Dropped(k).cleanup| == |k.cleanup| - 1
  {
    hide Apply;
  }

  /** Unwinding frees exactly the entries above the level, once each, top first. */
  lemma {:induction false} Unwinds(k: Kernel, level: nat)
    ensures var n := Min(level, |k.cleanup|);
            UnwindTo(k, level) == Cut(k, n, Frees(k.cleanup[n..]))
    decreases |k.cleanup|
  {
    hide UnwindTo, Cut, Frees, Dropped;
    UnwindTurn(k, level);
    if |k.cleanup| <= level {
      CutNothing(k);
    } else {
      Unwinds(Dropped(k), level);
      CutTurn(k, level);
    }
  }

  // ---- trap frames ----

  /** What a leave does to the state it was raised in. */
  function Unwound(at: Kernel, target: nat, reason: int): Kernel
    requires target < |at.traps|
  {
    var n := Min(at.traps[target].level, |at.cleanup|);
    Cut(at.(traps := at.traps[target := at.traps[target].(reason := reason)]), n, Frees(at.cleanup[n..]))
  }

  lemma LeaveUnwinds(k: Kernel, reason: int)
    ensures k.traps == [] ==> Leave(k, reason) == Ended(k, Normal)
    ensures k.traps != [] ==>
              var t := |k.traps| - 1;
              Leave(k, reason) == Ended(Unwound(k, t, reason), Jump(t, reason, k))
  {
    hide UnwindTo, Frees, RunOps;
    if k.traps != [] {
      var t := |k.traps| - 1;
      Unwinds(k.(traps := k.traps[t := k.traps[t].(reason := reason)]), k.traps[t].level);
    }
  }

  lemma {:induction false} OpsKeepTraps(k: Kernel, n: nat)
    ensures PopDestroyN(k, n).traps == k.traps
    decreases n
  {
    hide Apply;
    if n > 0 {
      OpsKeepTraps(Destroy(Popped(k), Top(k)), n - 1);
    }
  }

  /** Every program that ends normally leaves the trap frames as they were; every
      leave that escapes it goes to the innermost frame, just unwound to it. */
  predicate TrapsOk(k: Kernel, r: Ended) {
    match r.out
    case Normal => r.k.traps == k.traps
    case Jump(target, reason, at) =>
      && k.traps != [] && target == |k.traps| - 1 && at.traps == k.traps
      && r.k == Unwound(at, target, reason)
  }

  lemma LeaveTraps(k: Kernel, reason: int)
    ensures TrapsOk(k, Leave(k, reason))
  {
    hide Unwound, Leave;
    LeaveUnwinds(k, reason);
  }

  lemma AllocTraps(k: Kernel, op: HeapOp, leaves: bool)
    ensures TrapsOk(k, AllocShim(k, op, leaves))
  {
    hide Unwound, Apply, Leave;
    LeaveTraps(Do(k, op), -4);
  }

  lemma {:induction false} ExecTraps(p: Prog, k: Kernel)
    ensures TrapsOk(k, Exec(p, k))
    decreases p, 0
  {
    hide Unwound, Apply, Leave, AllocShim, RunTrap, PopDestroyN;
    match p
    case Seq(first, second) =>
      ExecTraps(first, k);
      ExecTraps(second, Exec(first, k).k);
    case If(thn, els) =>
      ExecTraps(thn, k);
      ExecTraps(els, k);
    case New => AllocTraps(k, OpAllocZeroed(k.r0), false);
    case NewL => AllocTraps(k, OpAllocZeroed(k.r0), true);
    case AllocL => AllocTraps(k, OpAlloc(k.r0), true);
    case VecNew => AllocTraps(k, OpAlloc(k.r0), false);
    case PopAndDestroyN => OpsKeepTraps(k, k.r0);
    case LeaveIfError => LeaveTraps(k, Signed(k.r0));
    case Exit => LeaveTraps(k, Signed(k.r0));
    case Call(body) => ExecTraps(body, k);
    case Run(body) => RunTrapCorrect(body, k);
    case _ =>
  }

  /** The state in which `ngage_run` starts its entry. */
  function Entered(k: Kernel): Kernel {
    k.(traps := k.traps + [Trap(|k.cleanup|, 0)])
  }

  /** `ngage_run` for every nested guest program. It always returns, with the trap
      frames as on entry. Below the nesting limit the entry runs; if it left, the
      reason is returned, the cleanup stack is that of the leave cut down to the
      entry level, and exactly the entries above that level were freed, top first
      and once each, although the stack is unwound twice. */
  lemma {:induction false} RunTrapCorrect(body: Prog, k: Kernel)
    ensures var r := RunTrap(body, k);
            && r.out == Normal && r.k.traps == k.traps && TrapsOk(k, r)
            && (|k.traps| >= TRAPS_MAX ==> r.k == k.(rc := -1))
            && (|k.traps| < TRAPS_MAX ==>
                  var e := Exec(body, Entered(k));
                  match e.out
                  case Normal => r.k == e.k.(traps := k.traps, rc := 0)
                  case Jump(_, reason, at) =>
                    var n := Min(|k.cleanup|, |at.cleanup|);
                    && r.k.rc == reason && at.traps == Entered(k).traps
                    && r.k == Cut(at, n, Frees(at.cleanup[n..])).(traps := k.traps, rc := reason))
    decreases body, 1
  {
    hide Frees, RunOps, Exec;
    if |k.traps| < TRAPS_MAX {
      var t, level := |k.traps|, |k.cleanup|;
      var e := Exec(body, Entered(k));
      ExecTraps(body, Entered(k));
      assert Entered(k).traps[..t] == k.traps;
      if e.out.Jump? {
        var at := e.out.at;
        var n := Min(level, |at.cleanup|);
        assert e.k.cleanup == at.cleanup[..n];
        Unwinds(e.k, level);
        CutNothing(e.k);
        assert e.k.traps[..t] == k.traps;
      }
    }
  }

  // ---- the heap under a program ----

  /** r follows k by a sequence of logged heap operations. */
  predicate Logged(k: Kernel, r: Kernel) {
    k.log <= r.log && r.heap == RunOps(k.heap, r.log[|k.log|..]).heap
  }

  lemma LoggedStep(k: Kernel, r: Kernel, ops: seq<HeapOp>)
    requires r.log == k.log + ops && r.heap == RunOps(k.heap, ops).heap
    ensures Logged(k, r)
  {
    assert r.log[|k.log|..] == ops;
  }

  lemma LoggedTrans(a: Kernel, b: Kernel, c: Kernel)
    requires Logged(a, b) && Logged(b, c)
    ensures Logged(a, c)
    ensures c.log[|a.log|..] == b.log[|a.log|..] + c.log[|b.log|..]
  {
    hide RunOps;
    var x, y := b.log[|a.log|..], c.log[|b.log|..];
    assert c.log == b.log + y && b.log == a.log + x;
    assert c.log[|a.log|..] == x + y;
    RunOpsConcat(a.heap, x, y);
  }

  lemma LoggedSame(k: Kernel, r: Kernel)
    requires r.log == k.log && r.heap == k.heap
    ensures Logged(k, r)
  {
    assert r.log[|k.log|..] == [];
    assert RunOps(k.heap, []).heap == k.heap;
  }

  lemma LoggedDo(k: Kernel, op: HeapOp)
    ensures Logged(k, Do(k, op))
  {
    hide Apply, RunOps;
    OneOp(k.heap, op);
    LoggedStep(k, Do(k, op), [op]);
  }

  lemma LoggedDestroy(k: Kernel, p: Word)
    ensures Logged(k, Destroy(Popped(k), p))
  {
    hide Apply, Logged;
    LoggedSame(k, Popped(k));
    if p != 0 {
      LoggedDo(Popped(k), OpFree(p));
      LoggedTrans(k, Popped(k), Do(Popped(k), OpFree(p)));
    }
  }

  lemma {:induction false} LoggedPopN(k: Kernel, n: nat)
    ensures Logged(k, PopDestroyN(k, n))
    decreases n
  {
    hide Apply, Logged;
    if n == 0 {
      LoggedSame(k, k);
    } else {
      var k1 := Destroy(Popped(k), Top(k));
      LoggedDestroy(k, Top(k));
      LoggedPopN(k1, n - 1);
      LoggedTrans(k, k1, PopDestroyN(k1, n - 1));
    }
  }

  lemma LoggedUnwind(k: Kernel, level: nat)
    ensures Logged(k, UnwindTo(k, level))
  {
    hide Frees, RunOps, UnwindTo;
    Unwinds(k, level);
    var n := Min(level, |k.cleanup|);
    LoggedStep(k, UnwindTo(k, level), Frees(k.cleanup[n..]));
  }

  /** Logged to the end, and to the state a leave was raised in. */
  predicate EndLogged(k: Kernel, r: Ended) {
    Logged(k, r.k) && (r.out.Jump? ==> Logged(k, r.out.at))
  }

  lemma EndLoggedTrans(a: Kernel, b: Kernel, r: Ended)
    requires Logged(a, b) && EndLogged(b, r)
    ensures EndLogged(a, r)
  {
    hide Logged;
    LoggedTrans(a, b, r.k);
    if r.out.Jump? { LoggedTrans(a, b, r.out.at); }
  }

  lemma LoggedLeave(k: Kernel, reason: int)
    ensures EndLogged(k, Leave(k, reason))
  {
    hide UnwindTo, Logged;
    LoggedSame(k, k);
    if k.traps != [] {
      var t := |k.traps| - 1;
      var marked := k.(traps := k.traps[t := k.traps[t].(reason := reason)]);
      LoggedSame(k, marked);
      LoggedUnwind(marked, k.traps[t].level);
      LoggedTrans(k, marked, UnwindTo(marked, k.traps[t].level));
    }
  }

  lemma LoggedAlloc(k: Kernel, op: HeapOp, leaves: bool)
    ensures EndLogged(k, AllocShim(k, op, leaves))
  {
    hide Apply, Leave, Logged;
    var k1 := Do(k, op);
    LoggedDo(k, op);
    var left := Leave(k1, -4).k;
    LoggedLeave(k1, -4);
    EndLoggedTrans(k, k1, Leave(k1, -4));
    LoggedSame(left, left.(r0 := Apply(k.heap, op).ptr));
    LoggedTrans(k, left, left.(r0 := Apply(k.heap, op).ptr));
    LoggedSame(k1, k1.(r0 := Apply(k.heap, op).ptr));
    LoggedTrans(k, k1, k1.(r0 := Apply(k.heap, op).ptr));
  }

  /** Whatever a program does to guest memory and the heap, it does by the
      operations it logs, leaves and unwinding included. */
  lemma {:induction false} ExecLogged(p: Prog, k: Kernel)
    ensures EndLogged(k, Exec(p, k))
    decreases p, 0
  {
    hide Apply, Leave, AllocShim, RunTrap, PopDestroyN, Logged, Destroy, Do;
    match p
    case Seq(first, second) =>
      var r := Exec(first, k);
      ExecLogged(first, k);
      ExecLogged(second, r.k);
      EndLoggedTrans(k, r.k, Exec(second, r.k));
    case If(thn, els) =>
      ExecLogged(thn, k);
      ExecLogged(els, k);
    case New => LoggedAlloc(k, OpAllocZeroed(k.r0), false);
    case NewL => LoggedAlloc(k, OpAllocZeroed(k.r0), true);
    case AllocL => LoggedAlloc(k, OpAlloc(k.r0), true);
    case VecNew => LoggedAlloc(k, OpAlloc(k.r0), false);
    case Poke(at, b) => LoggedDo(k, OpWrite(at, b));
    case Delete => LoggedDo(k, OpFree(k.r0));
    case PopAndDestroy => LoggedDestroy(k, Top(k));
    case PopAndDestroyN => LoggedPopN(k, k.r0);
    case LeaveIfError =>
      LoggedLeave(k, Signed(k.r0));
      LoggedSame(k, k);
    case Exit => LoggedLeave(k, Signed(k.r0));
    case Call(body) => ExecLogged(body, k);
    case Run(body) => RunLogged(body, k);
    case _ => LoggedSame(k, Exec(p, k).k);
  }

  lemma {:induction false} RunLogged(body: Prog, k: Kernel)
    ensures EndLogged(k, RunTrap(body, k))
    decreases body, 1
  {
    hide Exec, Logged, UnwindTo;
    RunTrapCorrect(body, k);
    if |k.traps| >= TRAPS_MAX {
      LoggedSame(k, k.(rc := -1));
    } else {
      var e := Exec(body, Entered(k)).k;
      LoggedSame(k, Entered(k));
      ExecLogged(body, Entered(k));
      EndLoggedTrans(k, Entered(k), Exec(body, Entered(k)));
      var u := UnwindTo(e, if |k.traps| < |e.traps| then e.traps[|k.traps|].level else 0);
      LoggedUnwind(e, if |k.traps| < |e.traps| then e.traps[|k.traps|].level else 0);
      LoggedTrans(k, e, u);
      var r := RunTrap(body, k).k;
      if r.log == e.log && r.heap == e.heap {
        LoggedSame(e, r);
        LoggedTrans(k, e, r);
      } else {
        LoggedSame(u, r);
        LoggedTrans(k, u, r);
      }
    }
  }

  /** The heap operations of a program started in k. */
  function OpsOf(p: Prog, k: Kernel): seq<HeapOp> {
    ExecLogged(p, k);
    Exec(p, k).k.log[|k.log|..]
  }

  /** The heap stays intact under every nested guest program whose requests do not
      wrap and whose frees and writes hit live blocks. */
  lemma HeapSurvives(p: Prog, k: Kernel, a: Abstract)
    requires Represents(k.heap, a) && AllAdmissible(a, OpsOf(p, k))
    ensures Represents(Exec(p, k).k.heap, AbsRunOps(a, OpsOf(p, k)).heap)
    ensures Grows(a, AbsRunOps(a, OpsOf(p, k)).heap)
  {
    hide RunOps, AbsRunOps, Represents, AllAdmissible, Exec;
    ExecLogged(p, k);
    HistoryRefines(k.heap, a, OpsOf(p, k));
  }

  // ---- the frees of an unwind ----

  /** Null or live, and no block twice. */
  predicate DistinctLive(a: Abstract, entries: seq<Word>) {
    && (forall i :: 0 <= i < |entries| ==> entries[i] == 0 || IsLive(a, entries[i]))
    && (forall i, j :: 0 <= i < j < |entries| && entries[i] != 0 ==> entries[i] != entries[j])
  }

  lemma FreeKeepsLive(a: Abstract, top: Word, p: Word)
    requires IsLive(a, p) && p != top
    ensures IsLive(AbsFree(a, top), p)
  {
    hide Extent;
    if top != 0 {
      var a' := AbsFree(a, top);
      var k :| 0 <= k < |a.cells| && !a.cells[k].free && Payload(a.base, a.cells, k) == p;
      SameHeaders(a.base, a.cells, a'.cells, k);
      assert !a'.cells[k].free;
    }
  }

  /** The cells of b are those of a, with the blocks of the entries freed. */
  ghost predicate FreedIn(a: Abstract, b: Abstract, entries: seq<Word>) {
    && b.base == a.base && b.end == a.end && |b.cells| == |a.cells|
    && forall j :: 0 <= j < |a.cells| ==>
         && b.cells[j].size == a.cells[j].size
         && (b.cells[j].free <==> a.cells[j].free || PayloadIn(a, j, entries))
  }

  lemma RestLive(a: Abstract, rest: seq<Word>, top: Word)
    requires DistinctLive(a, rest + [top]) && top != 0
    ensures IsLive(a, top) && DistinctLive(AbsFree(a, top), rest)
  {
    hide AbsFree, IsLive;
    var entries := rest + [top];
    assert entries[|rest|] == top;
    forall i | 0 <= i < |rest|
      ensures rest[i] == 0 || IsLive(AbsFree(a, top), rest[i])
    {
      assert entries[i] == rest[i];
      if rest[i] != 0 { FreeKeepsLive(a, top, rest[i]); }
    }
    assert forall i :: 0 <= i < |rest| ==> rest[i] == entries[i];
  }

  lemma FreedOneMore(a: Abstract, rest: seq<Word>, top: Word, b: Abstract)
    requires FreedIn(AbsFree(a, top), b, rest)
    ensures FreedIn(a, b, rest + [top])
  {
    hide Extent;
    var a' := AbsFree(a, top);
    PayloadPositive(a);
    SamePayloads(a, a');
    assert (rest + [top])[|rest|] == top;
    forall j | 0 <= j < |a.cells|
      ensures PayloadIn(a, j, rest + [top]) <==> PayloadIn(a', j, rest) || Payload(a.base, a.cells, j) == top
    {
      assert forall i :: 0 <= i < |rest| ==> (rest + [top])[i] == rest[i];
    }
  }

  /** Unwinding distinct live entries is admissible, and afterwards exactly their
      cells have been freed: no other cell changes. */
  lemma {:induction false} UnwindFreesOnce(a: Abstract, entries: seq<Word>)
    requires DistinctLive(a, entries)
    ensures AllAdmissible(a, Frees(entries))
    ensures FreedIn(a, AbsRunOps(a, Frees(entries)).heap, entries)
    decreases |entries|
  {
    hide Extent, IsLive, AbsFree, FreedIn, DistinctLive;
    if entries == [] {
      FreedNone(a);
    } else {
      var n := |entries| - 1;
      var top, rest := entries[n], entries[..n];
      assert entries == rest + [top];
      if top == 0 {
        FrontLive(a, rest);
        assert [] + Frees(rest) == Frees(rest);
        FreeNull(a);
        UnwindFreesOnce(a, rest);
      } else {
        RestLive(a, rest, top);
        UnwindFreesOnce(AbsFree(a, top), rest);
        assert ([OpFree(top)] + Frees(rest))[1..] == Frees(rest);
      }
      FreedOneMore(a, rest, top, AbsRunOps(a, Frees(entries)).heap);
    }
  }

  lemma FreedNone(a: Abstract)
    ensures FreedIn(a, a, [])
  {
  }

  lemma FrontLive(a: Abstract, rest: seq<Word>)
    requires DistinctLive(a, rest + [0])
    ensures DistinctLive(a, rest)
  {
    hide IsLive;
    assert forall i :: 0 <= i < |rest| ==> (rest + [0])[i] == rest[i];
  }

  predicate PayloadIn(a: Abstract, j: nat, entries: seq<Word>)
    requires j < |a.cells|
  {
    exists i :: 0 <= i < |entries| && entries[i] == Payload(a.base, a.cells, j)
  }

  lemma PayloadPositive(a: Abstract)
    ensures forall j :: 0 <= j < |a.cells| ==> Payload(a.base, a.cells, j) > 0
  {
  }

  lemma SamePayloads(a: Abstract, b: Abstract)
    requires Grows(a, b) && |a.cells| == |b.cells|
    ensures forall j :: 0 <= j < |a.cells| ==> Payload(a.base, a.cells, j) == Payload(b.base, b.cells, j)
  {
    hide Extent;
    forall j | 0 <= j < |a.cells|
      ensures Payload(a.base, a.cells, j) == Payload(b.base, b.cells, j)
    {
      SameHeaders(a.base, a.cells, b.cells, j);
    }
  }

  /** The heap operations between two states of a run. */
  function Since(k: Kernel, r: Kernel): seq<HeapOp> {
    if |k.log| <= |r.log| then r.log[|k.log|..] else []
  }

  /** The cleanup entries of r above the level of k. */
  function Above(k: Kernel, r: Kernel): seq<Word> {
    r.cleanup[Min(|k.cleanup|, |r.cleanup|)..]
  }

  /** A leave from a nested program, end to end. If the operations up to the leave
      were admissible and the entries pushed since the trap was entered are
      distinct live blocks, then `ngage_run` returns the reason, cuts the cleanup
      stack back, and the heap represents the cells at the leave with exactly
      the blocks of those entries freed. */
  lemma LeaveCorrect(body: Prog, k: Kernel, a: Abstract)
    requires |k.traps| < TRAPS_MAX && Represents(k.heap, a) && Exec(body, Entered(k)).out.Jump?
    requires var at := Exec(body, Entered(k)).out.at;
             && AllAdmissible(a, Since(k, at))
             && DistinctLive(AbsRunOps(a, Since(k, at)).heap, Above(k, at))
    ensures var e, r := Exec(body, Entered(k)), RunTrap(body, k);
            var at := e.out.at;
            var b := AbsRunOps(a, Since(k, at)).heap;
            var c := AbsRunOps(b, Frees(Above(k, at))).heap;
            && r.out == Normal && r.k.rc == e.out.reason && r.k.traps == k.traps
            && r.k.cleanup == at.cleanup[..Min(|k.cleanup|, |at.cleanup|)]
            && Represents(r.k.heap, c) && FreedIn(b, c, Above(k, at))
  {
    hide Exec, RunTrap, RunOps, AbsRunOps, AllAdmissible, Represents, DistinctLive, Frees, FreedIn;
    var at := Exec(body, Entered(k)).out.at;
    RunTrapCorrect(body, k);
    ExecLogged(body, Entered(k));
    var b := AbsRunOps(a, Since(k, at)).heap;
    HistoryRefines(k.heap, a, Since(k, at));
    UnwindFreesOnce(b, Above(k, at));
    HistoryRefines(at.heap, b, Frees(Above(k, at)));
  }

  // ---- admissible runs, in pieces ----

  lemma {:induction false} AdmissibleConcat(a: Abstract, x: seq<HeapOp>, y: seq<HeapOp>)
    ensures AllAdmissible(a, x + y) <==> AllAdmissible(a, x) && AllAdmissible(AbsRunOps(a, x).heap, y)
    ensures AbsRunOps(a, x + y).heap == AbsRunOps(AbsRunOps(a, x).heap, y).heap
    decreases |x|
  {
    hide Admissible, AbsApply;
    if x == [] {
      assert x + y == y;
    } else {
      assert (x + y)[1..] == x[1..] + y;
      AdmissibleConcat(AbsApply(a, x[0]).heap, x[1..], y);
    }
  }

  /** If a run that passes through m is admissible, so are its two parts. */
  lemma SplitRun(a: Abstract, k: Kernel, m: Kernel, r: Kernel)
    requires Logged(k, m) && Logged(m, r) && AllAdmissible(a, Since(k, r))
    ensures var b := AbsRunOps(a, Since(k, m)).heap;
            && AllAdmissible(a, Since(k, m)) && AllAdmissible(b, Since(m, r))
            && AbsRunOps(a, Since(k, r)).heap == AbsRunOps(b, Since(m, r)).heap
  {
    hide AllAdmissible, AbsRunOps, RunOps;
    LoggedTrans(k, m, r);
    AdmissibleConcat(a, Since(k, m), Since(m, r));
  }

  lemma NothingSince(a: Abstract, k: Kernel, r: Kernel)
    requires r.log == k.log && r.heap == k.heap
    ensures Logged(k, r) && Since(k, r) == []
    ensures AllAdmissible(a, Since(k, r)) && AbsRunOps(a, Since(k, r)).heap == a
  {
    LoggedSame(k, r);
  }

  lemma OneSince(a: Abstract, k: Kernel, op: HeapOp)
    ensures Logged(k, Do(k, op)) && Since(k, Do(k, op)) == [op]
    ensures AllAdmissible(a, Since(k, Do(k, op))) <==> Admissible(a, op)
    ensures AbsRunOps(a, Since(k, Do(k, op))).heap == AbsApply(a, op).heap
  {
    hide Apply, Admissible, AbsApply;
    LoggedDo(k, op);
    assert Since(k, Do(k, op)) == [op] && [op][1..] == [];
    var b := AbsApply(a, op).heap;
    assert AllAdmissible(b, []) && AbsRunOps(b, []).heap == b;
  }

  lemma DropSince(a: Abstract, k: Kernel)
    ensures Logged(k, Dropped(k))
    ensures AllAdmissible(a, Since(k, Dropped(k))) <==> Top(k) == 0 || IsLive(a, Top(k))
    ensures AbsRunOps(a, Since(k, Dropped(k))).heap == AbsFree(a, Top(k))
  {
    hide Apply, IsLive, AbsFree, AllAdmissible, AbsRunOps, Logged;
    if Top(k) == 0 {
      NothingSince(a, k, Popped(k));
      assert AbsFree(a, 0) == a by { FreeNull(a); }
    } else {
      OneSince(a, Popped(k), OpFree(Top(k)));
      LoggedDestroy(k, Top(k));
      assert Since(k, Dropped(k)) == Since(Popped(k), Dropped(k));
    }
  }

  lemma FreeNull(a: Abstract)
    ensures AbsFree(a, 0) == a
  {
  }

  lemma LiveIsBlock(a: Abstract, p: nat)
    requires IsLive(a, p)
    ensures IsBlock(a, p)
  {
    hide Payload;
  }

  lemma Chain(a: Abstract, k: Kernel, m: Kernel, r: Kernel)
    requires Logged(k, m) && Logged(m, r)
    ensures Logged(k, r)
    ensures AbsRunOps(a, Since(k, r)).heap == AbsRunOps(AbsRunOps(a, Since(k, m)).heap, Since(m, r)).heap
  {
    hide AllAdmissible, AbsRunOps, RunOps;
    LoggedTrans(k, m, r);
    AdmissibleConcat(a, Since(k, m), Since(m, r));
  }

  /** An allocation shim passes through the allocation, then perhaps a leave. */
  lemma AllocPasses(a: Abstract, k: Kernel, op: HeapOp, leaves: bool)
    requires AllAdmissible(a, Since(k, AllocShim(k, op, leaves).k))
    ensures Admissible(a, op)
    ensures var k1, b := Do(k, op), AbsApply(a, op).heap;
            Apply(k.heap, op).ptr == 0 && leaves ==> AllAdmissible(b, Since(k1, Leave(k1, -4).k))
  {
    hide Apply, Admissible, AbsApply, AllAdmissible, AbsRunOps, Leave, Logged, Since;
    var k1 := Do(k, op);
    OneSince(a, k, op);
    LoggedLeave(k1, -4);
    var left := Leave(k1, -4).k;
    var r := AllocShim(k, op, leaves).k;
    NothingSince(a, left, left.(r0 := Apply(k.heap, op).ptr));
    NothingSince(a, k1, k1.(r0 := Apply(k.heap, op).ptr));
    if Apply(k.heap, op).ptr == 0 && leaves {
      SinceIgnores(k, left, r);
      SplitRun(a, k, k1, left);
    } else {
      SinceIgnores(k, k1, r);
    }
  }

  lemma SinceIgnores(k: Kernel, m: Kernel, r: Kernel)
    requires m.log == r.log
    ensures Since(k, m) == Since(k, r)
  {
  }

  lemma SeqPasses(a: Abstract, k: Kernel, first: Prog, second: Prog)
    requires AllAdmissible(a, Since(k, Exec(Seq(first, second), k).k))
    ensures var r := Exec(first, k);
            && AllAdmissible(a, Since(k, r.k))
            && (r.out.Normal? ==> AllAdmissible(AbsRunOps(a, Since(k, r.k)).heap, Since(r.k, Exec(second, r.k).k)))
  {
    hide AllAdmissible, AbsRunOps, Logged, Since;
    ExecLogged(first, k);
    var r := Exec(first, k);
    if r.out.Normal? {
      ExecLogged(second, r.k);
      SplitRun(a, k, r.k, Exec(second, r.k).k);
    }
  }

  /** The end of `ngage_run`, from the end of its entry. */
  lemma RunEnds(body: Prog, k: Kernel)
    requires |k.traps| < TRAPS_MAX
    ensures var e := Exec(body, Entered(k));
            && |e.k.traps| == |k.traps| + 1 && e.k.traps[..|k.traps|] == k.traps
            && (e.out.Normal? ==> RunTrap(body, k).k == e.k.(traps := k.traps, rc := 0))
            && (e.out.Jump? ==>
                  && e.k.traps[|k.traps|].level == |k.cleanup|
                  && RunTrap(body, k).k ==
                       UnwindTo(e.k, |k.cleanup|).(traps := k.traps, rc := e.k.traps[|k.traps|].reason))
  {
    hide Exec, UnwindTo, Frees, RunOps;
    var e := Exec(body, Entered(k));
    ExecTraps(body, Entered(k));
    assert Entered(k).traps[..|k.traps|] == k.traps;
    if e.out.Jump? {
      UnwindKeepsTraps(e.k, |k.cleanup|);
      assert e.k.traps[..|k.traps|] == k.traps;
    }
  }

  lemma UnwindKeepsTraps(k: Kernel, level: nat)
    ensures UnwindTo(k, level).traps == k.traps
  {
    hide UnwindTo, Frees, RunOps;
    Unwinds(k, level);
  }

  lemma RunPasses(a: Abstract, k: Kernel, body: Prog)
    requires |k.traps| < TRAPS_MAX && AllAdmissible(a, Since(k, RunTrap(body, k).k))
    ensures var e := Exec(body, Entered(k));
            && AllAdmissible(a, Since(Entered(k), e.k))
            && (e.out.Jump? ==> AllAdmissible(AbsRunOps(a, Since(Entered(k), e.k)).heap,
                                              Since(e.k, UnwindTo(e.k, |k.cleanup|))))
  {
    hide AllAdmissible, AbsRunOps, Logged, Exec, UnwindTo, Since, Unwound;
    var e := Exec(body, Entered(k));
    ExecLogged(body, Entered(k));
    ExecTraps(body, Entered(k));
    var r := RunTrap(body, k).k;
    SinceSame(k, Entered(k), e.k);
    if e.out.Jump? {
      UnwoundLevel(e.out.at, e.out.target, e.out.reason);
      var u := UnwindTo(e.k, |k.cleanup|);
      LoggedUnwind(e.k, |k.cleanup|);
      SinceSame(k, Entered(k), u);
      SinceIgnores(k, r, u);
      SplitRun(a, Entered(k), e.k, u);
    } else {
      SinceIgnores(k, r, e.k);
    }
  }

  lemma UnwoundLevel(at: Kernel, target: nat, reason: int)
    requires target < |at.traps|
    ensures |Unwound(at, target, reason).traps| == |at.traps|
    ensures Unwound(at, target, reason).traps[target].level == at.traps[target].level
  {
    hide Frees, RunOps;
  }

  lemma SinceSame(k: Kernel, m: Kernel, r: Kernel)
    requires k.log == m.log
    ensures Since(k, r) == Since(m, r)
  {
  }
}
