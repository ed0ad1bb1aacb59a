/** The kernel as it runs: a cleanup array, a trap array and their counters, over
    the guest heap. A jump to a trap frame is returned to the frame's owner. */
module Kernel {
  import opened Words
  import opened Guest
  import M = HeapModel
  import H = HeapHistory
  import K = KernelModel
  import P = KernelProofs
  import Heap

  class Kernel {
    const heap: Heap.GuestHeap
    const cleanup: array<Word>
    var cleanupN: nat
    const traps: array<K.Trap>
    var trapN: nat
    var rc: int
    var locals: map<nat, Word>
    ghost var log: seq<H.HeapOp>

    ghost predicate Valid()
      reads this, heap, cleanup, traps, heap.cpu, heap.cpu.r, heap.cpu.mem
    {
      Wired() && heap.Valid()
    }

    /** What holds even when the guest has freed or overwritten what it should not. */
    ghost predicate Wired()
      reads this, heap, cleanup, traps, heap.cpu, heap.cpu.r, heap.cpu.mem
    {
      && heap.cpu.Valid()
      && cleanup.Length == K.CLEANUP_MAX && cleanupN <= K.CLEANUP_MAX
      && traps.Length == K.TRAPS_MAX && trapN <= K.TRAPS_MAX
      && cleanup != heap.cpu.r && cleanup as object != heap.cpu.mem as object
      && traps as object != heap.cpu.r as object && traps as object != heap.cpu.mem as object
      && traps as object != cleanup as object
    }

    ghost function View(): K.Kernel
      requires Wired()
      reads this, heap, cleanup, traps, heap.cpu, heap.cpu.r, heap.cpu.mem
    {
      K.Kernel(cleanup[..cleanupN], traps[..trapN], heap.View(), heap.cpu.r[0], locals, rc, log)
    }

    constructor (heap: Heap.GuestHeap)
      requires heap.Valid()
      ensures Valid() && this.heap == heap && fresh(cleanup) && fresh(traps)
      ensures View() == K.Kernel([], [], heap.View(), heap.cpu.r[0], map[], 0, [])
    {
      this.heap := heap;
      cleanup := new Word[K.CLEANUP_MAX](i => 0);
      cleanupN := 0;
      traps := new K.Trap[K.TRAPS_MAX](i => K.Trap(0, 0));
      trapN := 0;
      rc, locals, log := 0, map[], [];
    }

    // ---- the cleanup stack ----

    method CleanupPush(ptr: Word)
      requires Wired()
      modifies this`cleanupN, cleanup
      ensures Wired() && (old(heap.Valid()) ==> Valid()) && View() == K.Push(old(View()), ptr)
    {
      if cleanupN < cleanup.Length {
        cleanup[cleanupN] := ptr;
        cleanupN := cleanupN + 1;
      }
    }

    method CleanupPop() returns (ptr: Word)
      requires Wired()
      modifies this`cleanupN
      ensures Wired() && (old(heap.Valid()) ==> Valid()) && View() == K.Popped(old(View())) && ptr == K.Top(old(View()))
      ensures cleanupN == if old(cleanupN) == 0 then 0 else old(cleanupN) - 1
    {
      if cleanupN == 0 {
        return 0;
      }
      cleanupN := cleanupN - 1;
      return cleanup[cleanupN];
    }

    /** `if (p) ngage_free(c, p)`. */
    method Destroy(ptr: Word)
      requires Wired()
      modifies this`log, heap`cells, heap.cpu.mem
      ensures Wired() && View() == K.Destroy(old(View()), ptr)
      ensures old(Valid()) && (ptr == 0 || H.IsLive(old(heap.cells), ptr)) ==>
                Valid() && heap.cells == M.AbsFree(old(heap.cells), ptr)
    {
      hide M.Represents, M.AbsFree, H.IsLive, H.IsBlock;
      if ptr != 0 {
        if H.IsLive(heap.cells, ptr) { P.LiveIsBlock(heap.cells, ptr); }
        heap.Free(ptr);
        log := log + [H.OpFree(ptr)];
      } else {
        P.FreeNull(heap.cells);
      }
    }

    /** The operations from the current state to r are admissible, and the heap is intact. */
    ghost predicate May(r: K.Kernel)
      requires Wired()
      reads this, heap, cleanup, traps, heap.cpu, heap.cpu.r, heap.cpu.mem
    {
      Valid() && H.AllAdmissible(heap.cells, P.Since(View(), r))
    }

    /** The heap is intact, and its cells are those the operations from k, with cells a,
        lead to. */
    ghost predicate Follows(a: M.Abstract, k: K.Kernel)
      requires Wired()
      reads this, heap, cleanup, traps, heap.cpu, heap.cpu.r, heap.cpu.mem
    {
      Valid() && P.Logged(k, View()) && heap.cells == H.AbsRunOps(a, P.Since(k, View())).heap
    }

    /** Pops and destroys entries above level, whatever they point at. */
    method CleanupUnwindTo(level: nat)
      requires Wired()
      modifies this`cleanupN, this`log, heap`cells, heap.cpu.mem
      ensures Wired() && View() == K.UnwindTo(old(View()), level)
      ensures old(May(K.UnwindTo(View(), level))) ==> Follows(old(heap.cells), old(View()))
    {
      hide H.AllAdmissible, H.AbsRunOps, P.Logged, P.Since, K.Destroy, K.Popped, K.Top, M.AbsFree, M.Represents,
           H.IsLive;
      ghost var goal, a0, k0 := K.UnwindTo(View(), level), heap.cells, View();
      ghost var fine := May(goal);
      P.LoggedUnwind(k0, level);
      P.NothingSince(a0, k0, k0);
      while cleanupN > level
        invariant Wired() && K.UnwindTo(View(), level) == goal && P.Logged(k0, View())
        invariant fine ==> May(goal) && Follows(a0, k0)
        decreases cleanupN
      {
        ghost var k, a := View(), heap.cells;
        P.DropSince(a, k);
        P.LoggedUnwind(P.Dropped(k), level);
        if fine { P.SplitRun(a, k, P.Dropped(k), goal); }
        var ptr := CleanupPop();
        Destroy(ptr);
        P.Chain(a0, k0, k, P.Dropped(k));
      }
    }

    // ---- leaving ----

    /** Unwinds to the innermost trap and jumps there; without a trap it reports and returns. */
    method Leave(reason: int) returns (jumped: bool)
      requires Wired()
      modifies this`cleanupN, this`log, traps, heap`cells, heap.cpu.mem
      ensures Wired() && View() == K.Leave(old(View()), reason).k && jumped == K.Leave(old(View()), reason).out.Jump?
      ensures old(May(K.Leave(View(), reason).k)) ==> Follows(old(heap.cells), old(View()))
    {
      hide H.AllAdmissible, H.AbsRunOps, P.Logged, P.Since, K.UnwindTo, M.Represents;
      ghost var a, k := heap.cells, View();
      ghost var fine := May(K.Leave(k, reason).k);
      if trapN == 0 {
        P.NothingSince(a, k, k);
        return false;
      }
      var t := trapN - 1;
      traps[t] := traps[t].(reason := reason);
      ghost var marked := View();
      P.NothingSince(a, k, marked);
      P.LoggedUnwind(marked, traps[t].level);
      if fine { P.SplitRun(a, k, marked, K.UnwindTo(marked, traps[t].level)); }
      assert marked == k.(traps := k.traps[t := k.traps[t].(reason := reason)]);
      CleanupUnwindTo(traps[t].level);
      P.Chain(a, k, marked, View());
      return true;
    }

    /** `newL`, `AllocL` and the operators new: allocate r0 bytes, leave on failure if asked to. */
    method AllocShim(zeroed: bool, leaves: bool) returns (jumped: bool)
      requires Valid()
      modifies this`cleanupN, this`log, traps, heap`brk, heap`cells, heap.cpu.r, heap.cpu.mem
      ensures Wired()
      ensures var r := K.AllocShim(old(View()), AllocOp(zeroed, old(View()).r0), leaves);
              View() == r.k && jumped == r.out.Jump?
      ensures old(May(K.AllocShim(View(), AllocOp(zeroed, View().r0), leaves).k)) ==>
                Follows(old(heap.cells), old(View()))
    {
      hide H.AllAdmissible, H.AbsRunOps, P.Logged, P.Since, K.Leave, M.Represents, M.AbsAlloc, M.Alloc,
           M.AllocZeroed, M.NoWrap;
      ghost var a, k := heap.cells, View();
      var size := heap.cpu.r[0];
      ghost var op := AllocOp(zeroed, size);
      ghost var fine := May(K.AllocShim(k, op, leaves).k);
      if fine { P.AllocPasses(a, k, op, leaves); }
      var ptr;
      if zeroed {
        ptr := heap.AllocZeroed(size);
      } else {
        ptr := heap.Alloc(size);
      }
      log := log + [op];
      ghost var k1 := View();
      P.OneSince(a, k, op);
      assert k1 == K.Do(k, op);
      if ptr == 0 && leaves {
        jumped := Leave(-4);
        if fine { P.Chain(a, k, k1, View()); }
        if jumped {
          return;
        }
      } else {
        jumped := false;
      }
      ghost var k2 := View();
      heap.cpu.r[0] := ptr;
      P.NothingSince(heap.cells, k2, View());
      if fine { P.Chain(a, k, k2, View()); }
    }

    static function AllocOp(zeroed: bool, size: Word): H.HeapOp {
      if zeroed then H.OpAllocZeroed(size) else H.OpAlloc(size)
    }

    // ---- shims without a leave ----

    /** Frees the top n entries, or as many as there are, whatever they point at. */
    method PopAndDestroyN(n: nat)
      requires Wired()
      modifies this`cleanupN, this`log, heap`cells, heap.cpu.mem
      ensures Wired() && View() == K.PopDestroyN(old(View()), n)
      ensures old(May(K.PopDestroyN(View(), n))) ==> Follows(old(heap.cells), old(View()))
    {
      hide H.AllAdmissible, H.AbsRunOps, P.Logged, P.Since, K.Destroy, K.Popped, K.Top, M.AbsFree, M.Represents,
           H.IsLive;
      ghost var goal, a0, k0 := K.PopDestroyN(View(), n), heap.cells, View();
      ghost var fine := May(goal);
      P.NothingSince(a0, k0, k0);
      var left := n;
      while left > 0
        invariant left >= 0 && Wired() && K.PopDestroyN(View(), left) == goal && P.Logged(k0, View())
        invariant fine ==> May(goal) && Follows(a0, k0)
        decreases left
      {
        left := left - 1;
        ghost var k, a := View(), heap.cells;
        P.DropSince(a, k);
        P.LoggedPopN(P.Dropped(k), left);
        if fine { P.SplitRun(a, k, P.Dropped(k), goal); }
        var ptr := CleanupPop();
        Destroy(ptr);
        P.Chain(a0, k0, k, P.Dropped(k));
      }
    }

    /** A guest store. */
    method Poke(at: Word, b: Byte)
      requires Wired()
      modifies this`log, heap.cpu.mem
      ensures Wired() && View() == K.Do(old(View()), H.OpWrite(at, b))
      ensures old(Valid()) && H.Admissible(heap.cells, H.OpWrite(at, b)) ==> Valid()
    {
      hide M.Represents, H.Admissible, W8;
      if Valid() && H.Admissible(heap.cells, H.OpWrite(at, b)) {
        H.StepRefines(heap.View(), heap.cells, H.OpWrite(at, b));
      }
      heap.cpu.Write8(at, b);
      log := log + [H.OpWrite(at, b)];
    }

    /** `operator delete`. */
    method Delete(ptr: Word)
      requires Wired()
      modifies this`log, heap`cells, heap.cpu.mem
      ensures Wired() && View() == K.Do(old(View()), H.OpFree(ptr))
      ensures old(Valid()) && (ptr == 0 || H.IsLive(old(heap.cells), ptr)) ==>
                Valid() && heap.cells == M.AbsFree(old(heap.cells), ptr)
    {
      hide M.Represents, M.AbsFree, H.IsLive, H.IsBlock;
      if ptr != 0 && H.IsLive(heap.cells, ptr) {
        P.LiveIsBlock(heap.cells, ptr);
      }
      heap.Free(ptr);
      log := log + [H.OpFree(ptr)];
    }

    // ---- programs ----

    /** Shims that only move values between r0, the locals and the cleanup stack. */
    method Local(p: K.Prog)
      requires Valid() && (p.Skip? || p.Set? || p.Save? || p.Restore? || p.PushL? || p.Pop?)
      modifies this`cleanupN, this`locals, cleanup, heap.cpu.r
      ensures Valid() && View() == K.Exec(p, old(View())).k
      ensures Follows(old(heap.cells), old(View()))
    {
      hide H.AllAdmissible, H.AbsRunOps, P.Logged, P.Since, M.Represents;
      ghost var a, k := heap.cells, View();
      match p {
        case Set(v) => heap.cpu.r[0] := v;
        case Save(slot) => locals := locals[slot := heap.cpu.r[0]];
        case Restore(slot) => heap.cpu.r[0] := if slot in locals then locals[slot] else 0;
        case PushL => CleanupPush(heap.cpu.r[0]);
        case Pop => var _ := CleanupPop();
        case _ =>
      }
      P.NothingSince(a, k, View());
    }

    /** Every other shim, whatever it frees or overwrites. */
    method Shim(p: K.Prog) returns (jumped: bool)
      requires Valid() && !(p.Seq? || p.If? || p.Call? || p.Run?)
      modifies this, cleanup, traps, heap, heap.cpu.r, heap.cpu.mem
      ensures Wired() && View() == K.Exec(p, old(View())).k && jumped == K.Exec(p, old(View())).out.Jump?
      ensures old(May(K.Exec(p, View()).k)) ==> Follows(old(heap.cells), old(View()))
    {
      hide H.AllAdmissible, H.AbsRunOps, P.Logged, P.Since, M.Represents, K.Leave, K.AllocShim, K.PopDestroyN,
           K.Destroy, K.Popped, K.Top, M.AbsFree, H.IsLive;
      ghost var a, k := heap.cells, View();
      jumped := false;
      match p
      case New => jumped := AllocShim(true, false);
      case NewL => jumped := AllocShim(true, true);
      case AllocL => jumped := AllocShim(false, true);
      case VecNew => jumped := AllocShim(false, false);
      case Poke(at, b) =>
        P.OneSince(a, k, H.OpWrite(at, b));
        Poke(at, b);
      case Delete =>
        P.OneSince(a, k, H.OpFree(k.r0));
        Delete(heap.cpu.r[0]);
      case PopAndDestroy =>
        P.DropSince(a, k);
        var ptr := CleanupPop();
        Destroy(ptr);
      case PopAndDestroyN => PopAndDestroyN(heap.cpu.r[0]);
      case LeaveIfError =>
        if Signed(heap.cpu.r[0]) < 0 {
          jumped := Leave(Signed(heap.cpu.r[0]));
        } else {
          P.NothingSince(a, k, k);
        }
      case Exit => jumped := Leave(Signed(heap.cpu.r[0]));
      case Skip | Set(_) | Save(_) | Restore(_) | PushL | Pop => Local(p);
      case _ => assert false;
    }

    /** Runs a guest program; jumped tells that a leave is on its way to the innermost trap. */
    method Exec(p: K.Prog) returns (jumped: bool)
      requires Valid() && May(K.Exec(p, View()).k)
      modifies this, cleanup, traps, heap, heap.cpu.r, heap.cpu.mem
      ensures Valid() && View() == K.Exec(p, old(View())).k && jumped == K.Exec(p, old(View())).out.Jump?
      ensures Follows(old(heap.cells), old(View()))
      decreases p, 0
    {
      hide H.AllAdmissible, H.AbsRunOps, P.Logged, P.Since, M.Represents, K.Leave, K.AllocShim, K.RunTrap,
           K.PopDestroyN, K.Destroy, K.Popped, K.Top, M.AbsFree, H.IsLive;
      ghost var a, k := heap.cells, View();
      match p
      case Seq(first, second) =>
        P.SeqPasses(a, k, first, second);
        jumped := Exec(first);
        ghost var k1 := View();
        if !jumped {
          jumped := Exec(second);
          P.Chain(a, k, k1, View());
        }
      case If(thn, els) =>
        if heap.cpu.r[0] != 0 {
          jumped := Exec(thn);
        } else {
          jumped := Exec(els);
        }
      case Call(body) => jumped := Exec(body);
      case Run(body) =>
        jumped := false;
        RunTrap(body);
      case _ => jumped := Shim(p);
    }

    /** `ngage_run`: installs a trap, runs the entry, and catches a leave to it. */
    method RunTrap(body: K.Prog)
      requires Valid() && May(K.RunTrap(body, View()).k)
      modifies this, cleanup, traps, heap, heap.cpu.r, heap.cpu.mem
      ensures Valid() && View() == K.RunTrap(body, old(View())).k && K.RunTrap(body, old(View())).out == K.Normal
      ensures Follows(old(heap.cells), old(View()))
      decreases body, 1
    {
      hide H.AllAdmissible, H.AbsRunOps, P.Logged, P.Since, M.Represents, K.Exec, K.UnwindTo, K.RunTrap;
      ghost var a, k := heap.cells, View();
      P.RunTrapCorrect(body, k);
      if trapN >= traps.Length {
        rc := -1;
        P.NothingSince(a, k, View());
        return;
      }
      P.RunPasses(a, k, body);
      P.RunEnds(body, k);
      var t := trapN;
      traps[t] := K.Trap(cleanupN, 0);
      trapN := trapN + 1;
      ghost var entered := View();
      P.NothingSince(a, k, entered);
      assert entered == P.Entered(k);
      var jumped := Exec(body);
      ghost var e := View();
      P.Chain(a, k, entered, e);
      assert e == K.Exec(body, P.Entered(k)).k && heap.cells == H.AbsRunOps(a, P.Since(P.Entered(k), e)).heap;
      assert trapN == t + 1 && e.traps[t] == traps[t];
      if jumped {
        CleanupUnwindTo(traps[t].level);
        P.LoggedUnwind(e, |k.cleanup|);
        P.UnwindKeepsTraps(e, |k.cleanup|);
        P.Chain(a, k, e, View());
      }
      ghost var u := View();
      rc := if jumped then traps[t].reason else 0;
      trapN := trapN - 1;
      assert View() == u.(traps := k.traps, rc := rc);
      P.NothingSince(heap.cells, u, View());
      P.Chain(a, k, u, View());
    }
  }
}
