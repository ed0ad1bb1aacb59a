/** The cleanup stack and the trap machinery over the guest heap: programs of
    shim calls, and what `longjmp` makes of a leave inside them. */
module KernelModel {
  import opened Words
  import opened HeapModel
  import opened HeapHistory

  const CLEANUP_MAX := 1024
  const TRAPS_MAX := 32

  datatype Trap = Trap(level: nat, reason: int)

  /** Kernel globals, the heap with the guest memory, the guest's r0 and locals,
      the last value `ngage_run` returned, and every heap operation so far. */
  datatype Kernel = Kernel(
    cleanup: seq<Word>,
    traps: seq<Trap>,
    heap: Heap,
    r0: Word,
    locals: map<nat, Word>,
    rc: int,
    log: seq<HeapOp>)

  /** Guest programs, as the shims see them; every argument and result passes through r0. */
  datatype Prog =
    | Skip
    | Seq(first: Prog, second: Prog)
    | Set(v: Word)                            // the guest puts a constant in r0
    | Save(slot: nat) | Restore(slot: nat)    // between r0 and a local
    | Poke(at: Word, b: Byte)                 // a guest store
    | If(thn: Prog, els: Prog)                // on r0 != 0
    | New | NewL | AllocL | VecNew | Delete
    | PushL | Pop | PopAndDestroy | PopAndDestroyN
    | LeaveIfError | Exit
    | Call(body: Prog)
    | Run(body: Prog)                         // ngage_run

  /** A leave jumps to the trap frame target; at is the state it was raised in. */
  datatype Outcome = Normal | Jump(target: nat, reason: int, at: Kernel)

  datatype Ended = Ended(k: Kernel, out: Outcome)

  // ---- heap operations ----

  function Do(k: Kernel, op: HeapOp): Kernel {
    k.(heap := Apply(k.heap, op).heap, log := k.log + [op])
  }

  /** `if (p) ngage_free(c, p)`. */
  function Destroy(k: Kernel, p: Word): Kernel {
    if p == 0 then k else Do(k, OpFree(p))
  }

  // ---- the cleanup stack ----

  function Push(k: Kernel, p: Word): Kernel {
    if |k.cleanup| < CLEANUP_MAX then k.(cleanup := k.cleanup + [p]) else k
  }

  function Top(k: Kernel): Word {
    if k.cleanup == [] then 0 else k.cleanup[|k.cleanup| - 1]
  }

  function Popped(k: Kernel): Kernel {
    if k.cleanup == [] then k else k.(cleanup := k.cleanup[..|k.cleanup| - 1])
  }

  function UnwindTo(k: Kernel, level: nat): Kernel
    decreases |k.cleanup|
  {
    if |k.cleanup| <= level then k else UnwindTo(Destroy(Popped(k), Top(k)), level)
  }

  function PopDestroyN(k: Kernel, n: nat): Kernel
    decreases n
  {
    if n == 0 then k else PopDestroyN(Destroy(Popped(k), Top(k)), n - 1)
  }

  // ---- leaving ----

  /** Without a trap the report returns and the program goes on. */
  function Leave(k: Kernel, reason: int): Ended {
    if k.traps == [] then Ended(k, Normal)
    else
      var t := |k.traps| - 1;
      var marked := k.(traps := k.traps[t := k.traps[t].(reason := reason)]);
      Ended(UnwindTo(marked, k.traps[t].level), Jump(t, reason, k))
  }

  function AllocShim(k: Kernel, op: HeapOp, leaves: bool): Ended {
    var p := Apply(k.heap, op).ptr;
    var k1 := Do(k, op);
    if p == 0 && leaves then
      var left := Leave(k1, -4);
      if left.out.Normal? then Ended(left.k.(r0 := p), Normal) else left
    else Ended(k1.(r0 := p), Normal)
  }

  function Exec(p: Prog, k: Kernel): Ended
    decreases p, 0
  {
    match p
    case Skip => Ended(k, Normal)
    case Seq(first, second) =>
      var r := Exec(first, k);
      if r.out.Normal? then Exec(second, r.k) else r
    case Set(v) => Ended(k.(r0 := v), Normal)
    case Save(slot) => Ended(k.(locals := k.locals[slot := k.r0]), Normal)
    case Restore(slot) => Ended(k.(r0 := if slot in k.locals then k.locals[slot] else 0), Normal)
    case Poke(at, b) => Ended(Do(k, OpWrite(at, b)), Normal)
    case If(thn, els) => if k.r0 != 0 then Exec(thn, k) else Exec(els, k)
    case New => AllocShim(k, OpAllocZeroed(k.r0), false)
    case NewL => AllocShim(k, OpAllocZeroed(k.r0), true)
    case AllocL => AllocShim(k, OpAlloc(k.r0), true)
    case VecNew => AllocShim(k, OpAlloc(k.r0), false)
    case Delete => Ended(Do(k, OpFree(k.r0)), Normal)
    case PushL => Ended(Push(k, k.r0), Normal)
    case Pop => Ended(Popped(k), Normal)
    case PopAndDestroy => Ended(Destroy(Popped(k), Top(k)), Normal)
    case PopAndDestroyN => Ended(PopDestroyN(k, k.r0), Normal)
    case LeaveIfError => if Signed(k.r0) < 0 then Leave(k, Signed(k.r0)) else Ended(k, Normal)
    case Exit => Leave(k, Signed(k.r0))
    case Call(body) => Exec(body, k)
    case Run(body) => RunTrap(body, k)
  }

  /** `ngage_run`: at the nesting limit the entry does not run; a leave to this
      trap unwinds again and yields its reason. */
  function RunTrap(body: Prog, k: Kernel): Ended
    decreases body, 1
  {
    if |k.traps| >= TRAPS_MAX then Ended(k.(rc := -1), Normal)
    else
      var t, level := |k.traps|, |k.cleanup|;
      var r := Exec(body, k.(traps := k.traps + [Trap(level, 0)]));
      if r.out.Normal? then Ended(EndTrap(r.k).(rc := 0), Normal)
      else if r.out.target == t && t < |r.k.traps| then
        var u := UnwindTo(r.k, r.k.traps[t].level);
        Ended(EndTrap(u).(rc := r.k.traps[t].reason), Normal)
      else r
  }

  /** `g_trap_n--`. */
  function EndTrap(k: Kernel): Kernel {
    if k.traps == [] then k else k.(traps := k.traps[..|k.traps| - 1])
  }
}
