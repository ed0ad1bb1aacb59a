/** What a caller sees of each shim: the register, the cleanup stack, the blocks of
    the heap, and whether it leaves. */
module ShimLaws {
  import opened Words
  import opened HeapModel
  import opened HeapHistory
  import opened KernelModel
  import opened KernelProofs

  // ---- leaving ----

  /** `User::LeaveIfError`: nothing happens for any number that is not negative; a negative
      one leaves with itself as the reason, to the innermost trap. */
  lemma LeaveIfErrorLaw(k: Kernel)
    ensures k.r0 < 0x8000_0000 ==> Exec(LeaveIfError, k) == Ended(k, Normal)
    ensures k.r0 >= 0x8000_0000 && k.traps != [] ==>
              Exec(LeaveIfError, k).out == Jump(|k.traps| - 1, k.r0 as int - 0x1_0000_0000, k)
    ensures k.traps == [] ==> Exec(LeaveIfError, k) == Ended(k, Normal)
  {
    hide UnwindTo;
  }

  /** `User::Exit` always leaves, with r0 as a signed reason. */
  lemma ExitLaw(k: Kernel)
    ensures k.traps != [] ==>
              Exec(Exit, k).out
              == Jump(|k.traps| - 1, if k.r0 < 0x8000_0000 then k.r0 else k.r0 as int - 0x1_0000_0000, k)
    ensures k.traps == [] ==> Exec(Exit, k) == Ended(k, Normal)
  {
    hide UnwindTo;
  }

  // ---- allocation ----

  /** Neither a free cell nor the rest of the region holds size bytes, rounded up to 8. */
  predicate NoRoom(a: Abstract, size: nat) {
    var need := if size == 0 then 8 else size + (8 - size % 8) % 8;
    && (forall j :: 0 <= j < |a.cells| && a.cells[j].free ==> a.cells[j].size < need)
    && Frontier(a) + 8 + need > a.end
  }

  /** p is a live block of at least size bytes. */
  predicate LiveBlock(a: Abstract, p: nat, size: nat) {
    exists j :: 0 <= j < |a.cells| && !a.cells[j].free && Payload(a.base, a.cells, j) == p && a.cells[j].size >= size
  }

  lemma NeedIs(size: nat)
    ensures Need(size) == if size == 0 then 8 else size + (8 - size % 8) % 8
    ensures Need(size) >= size
  {
  }

  lemma ServedLaw(a: Abstract, size: Word)
    requires SizesOk(a.cells)
    ensures AbsAlloc(a, size).ptr == 0 <==> NoRoom(a, size)
    ensures AbsAlloc(a, size).ptr != 0 ==> LiveBlock(AbsAlloc(a, size).heap, AbsAlloc(a, size).ptr, size)
  {
    hide Extent, Need;
    NeedIs(size);
    PayloadPositive(a);
    if AbsAlloc(a, size).ptr != 0 {
      var j := AllocReturns(a, size);
    }
    FitIs(a.cells, Need(size));
  }

  lemma FitIs(cells: seq<Cell>, s: nat)
    ensures FirstFit(cells, s) == |cells| <==> forall j :: 0 <= j < |cells| && cells[j].free ==> cells[j].size < s
  {
  }

  /** An allocating shim that succeeds returns a live block of at least r0 bytes in r0, all
      zero if asked for; one that fails returns 0 or leaves with reason -4. */
  ghost predicate Allocates(k: Kernel, a: Abstract, r: Ended, zeroed: bool, leaves: bool) {
    var a' := AbsAlloc(a, k.r0).heap;
    if NoRoom(a, k.r0) then
      if leaves && k.traps != [] then r.out.Jump? && r.out.target == |k.traps| - 1 && r.out.reason == -4
      else r.out == Normal && r.k.r0 == 0 && Represents(r.k.heap, a) && SameStacks(k, r.k)
    else
      && r.out == Normal && LiveBlock(a', r.k.r0, k.r0) && Represents(r.k.heap, a') && SameStacks(k, r.k)
      && (zeroed ==> IsZero(r.k.heap.mem, r.k.r0, k.r0))
  }

  predicate SameStacks(k: Kernel, r: Kernel) {
    r.cleanup == k.cleanup && r.traps == k.traps && r.locals == k.locals && r.rc == k.rc
  }

  lemma ShimAllocates(k: Kernel, a: Abstract, op: HeapOp, zeroed: bool, leaves: bool)
    requires Apply(k.heap, op).ptr == AbsAlloc(a, k.r0).ptr
    requires Represents(Apply(k.heap, op).heap, AbsAlloc(a, k.r0).heap)
    requires zeroed && Apply(k.heap, op).ptr != 0 ==> IsZero(Apply(k.heap, op).heap.mem, Apply(k.heap, op).ptr, k.r0)
    requires AbsAlloc(a, k.r0).ptr == 0 <==> NoRoom(a, k.r0)
    requires AbsAlloc(a, k.r0).ptr != 0 ==> LiveBlock(AbsAlloc(a, k.r0).heap, AbsAlloc(a, k.r0).ptr, k.r0)
    ensures Allocates(k, a, AllocShim(k, op, leaves), zeroed, leaves)
  {
    hide Represents, Apply, AbsAlloc, NoRoom, LiveBlock, UnwindTo, IsZero;
    if NoRoom(a, k.r0) { NoBlockNoChange(a, k.r0); }
  }

  /** `New` and `NewL` zero their block, `AllocL` and `VecNew` do not; those that end in L
      leave when there is no room. */
  lemma AllocLaws(k: Kernel, a: Abstract)
    requires Represents(k.heap, a) && NoWrap(a, k.r0)
    ensures Allocates(k, a, Exec(New, k), true, false)
    ensures Allocates(k, a, Exec(NewL, k), true, true)
    ensures Allocates(k, a, Exec(AllocL, k), false, true)
    ensures Allocates(k, a, Exec(VecNew, k), false, false)
  {
    hide Represents, Alloc, AllocZeroed, AbsAlloc, NoWrap, NoRoom, LiveBlock, AllocShim, Allocates, IsZero;
    Represented(k.heap, a);
    ServedLaw(a, k.r0);
    AllocRefines(k.heap, a, k.r0);
    AllocZeroedRefines(k.heap, a, k.r0);
    ShimAllocates(k, a, OpAllocZeroed(k.r0), true, false);
    ShimAllocates(k, a, OpAllocZeroed(k.r0), true, true);
    ShimAllocates(k, a, OpAlloc(k.r0), false, true);
    ShimAllocates(k, a, OpAlloc(k.r0), false, false);
  }

  lemma Represented(h: Heap, a: Abstract)
    requires Represents(h, a)
    ensures SizesOk(a.cells)
  {
  }

  /** The operators new without a leave never jump, whatever happens. */
  lemma NeverJump(k: Kernel)
    ensures Exec(New, k).out == Normal && Exec(VecNew, k).out == Normal
  {
    hide Alloc, AllocZeroed;
  }

  // ---- freeing ----

  lemma OneFreed(h: Heap, a: Abstract, p: Word)
    requires Represents(h, a) && (p == 0 || IsLive(a, p))
    ensures Represents(Free(h, p), AbsFree(a, p)) && FreedIn(a, AbsFree(a, p), [p])
  {
    hide Represents, Free, AbsFree, IsLive;
    if p != 0 { LiveIsBlock(a, p); }
    FreeRefines(h, a, p);
    FreedNone(AbsFree(a, p));
    FreedOneMore(a, [], p, AbsFree(a, p));
    assert [] + [p] == [p];
  }

  /** `operator delete` frees exactly the block in r0. */
  lemma DeleteLaw(k: Kernel, a: Abstract)
    requires Represents(k.heap, a) && (k.r0 == 0 || IsLive(a, k.r0))
    ensures var r := Exec(Delete, k);
            && r.out == Normal && r.k.r0 == k.r0 && SameStacks(k, r.k)
            && exists b :: Represents(r.k.heap, b) && FreedIn(a, b, [k.r0])
  {
    hide Represents, Free, AbsFree, IsLive, FreedIn;
    OneFreed(k.heap, a, k.r0);
  }

  /** `CleanupStack::PopAndDestroy` drops the top entry and frees exactly its block. */
  lemma PopAndDestroyLaw(k: Kernel, a: Abstract)
    requires Represents(k.heap, a) && k.cleanup != []
    requires var top := k.cleanup[|k.cleanup| - 1]; top == 0 || IsLive(a, top)
    ensures var r, n := Exec(PopAndDestroy, k), |k.cleanup| - 1;
            && r.out == Normal && r.k.r0 == k.r0 && r.k.cleanup == k.cleanup[..n] && r.k.traps == k.traps
            && exists b :: Represents(r.k.heap, b) && FreedIn(a, b, [k.cleanup[n]])
  {
    hide Represents, Free, AbsFree, IsLive, FreedIn;
    var top := k.cleanup[|k.cleanup| - 1];
    OneFreed(k.heap, a, top);
    if top == 0 { FreeOfNull(k.heap); }
  }

  lemma FreeOfNull(h: Heap)
    ensures Free(h, 0) == h
  {
  }

  /** `PopAndDestroy(n)` drops and frees the top n entries, top first, or all there are. */
  lemma {:induction false} PopAndDestroyNLaw(k: Kernel, n: nat)
    ensures var left := if n >= |k.cleanup| then 0 else |k.cleanup| - n;
            PopDestroyN(k, n) == Cut(k, left, Frees(k.cleanup[left..]))
    decreases n
  {
    hide Cut, Frees, Dropped, RunOps;
    var left := if n >= |k.cleanup| then 0 else |k.cleanup| - n;
    PopTurn(k, n);
    if left == |k.cleanup| {
      CutNothing(k);
      if n > 0 { PopAndDestroyNLaw(k, n - 1); }
    } else {
      PopAndDestroyNLaw(Dropped(k), n - 1);
      CutTurn(k, left);
    }
  }

  lemma PopTurn(k: Kernel, n: nat)
    ensures PopDestroyN(k, n) == if n == 0 then k else PopDestroyN(Dropped(k), n - 1)
    ensures k.cleanup != [] ==> |Dropped(k).cleanup| == |k.cleanup| - 1
    ensures k.cleanup == [] ==> Dropped(k) == k
  {
    hide Apply;
  }

  lemma PopAndDestroyNShim(k: Kernel)
    ensures var n: int := k.r0;
            var left := if n >= |k.cleanup| then 0 else |k.cleanup| - n;
            Exec(PopAndDestroyN, k) == Ended(Cut(k, left, Frees(k.cleanup[left..])), Normal)
  {
    hide Cut, Frees, PopDestroyN;
    PopAndDestroyNLaw(k, k.r0);
  }

  // ---- the cleanup stack ----

  /** `PushL` puts r0 on top, unless 1024 entries are there; `Pop` takes it off again. */
  lemma PushPopLaw(k: Kernel)
    ensures |k.cleanup| < 1024 ==> Exec(PushL, k) == Ended(k.(cleanup := k.cleanup + [k.r0]), Normal)
    ensures |k.cleanup| >= 1024 ==> Exec(PushL, k) == Ended(k, Normal)
    ensures |k.cleanup| < 1024 ==> Exec(Seq(PushL, Pop), k) == Ended(k, Normal)
    ensures k.cleanup == [] ==> Exec(Pop, k) == Ended(k, Normal)
    ensures k.cleanup != [] ==> Exec(Pop, k) == Ended(k.(cleanup := k.cleanup[..|k.cleanup| - 1]), Normal)
  {
    assert (k.cleanup + [k.r0])[..|k.cleanup|] == k.cleanup;
  }

  // ---- the rest of a program ----

  lemma SeqIs(p: Prog, q: Prog, k: Kernel)
    ensures Exec(Seq(p, q), k) == if Exec(p, k).out.Normal? then Exec(q, Exec(p, k).k) else Exec(p, k)
  {
  }

  lemma LocalsAre(k: Kernel, slot: nat, v: Word)
    ensures Exec(Skip, k) == Ended(k, Normal)
    ensures Exec(Set(v), k) == Ended(k.(r0 := v), Normal)
    ensures Exec(Save(slot), k) == Ended(k.(locals := k.locals[slot := k.r0]), Normal)
    ensures Exec(Restore(slot), k) == Ended(k.(r0 := if slot in k.locals then k.locals[slot] else 0), Normal)
  {
  }

  /** A value saved is restored, over any constant in between; a slot never saved holds 0. */
  lemma SaveRestoreLaw(k: Kernel, slot: nat, v: Word)
    ensures Exec(Seq(Save(slot), Seq(Set(v), Restore(slot))), k) == Ended(k.(locals := k.locals[slot := k.r0]), Normal)
    ensures Exec(Set(v), k) == Ended(k.(r0 := v), Normal)
    ensures slot !in k.locals ==> Exec(Restore(slot), k) == Ended(k.(r0 := 0), Normal)
  {
    hide Exec;
    var k1 := k.(locals := k.locals[slot := k.r0]);
    LocalsAre(k, slot, v);
    LocalsAre(k1, slot, v);
    LocalsAre(k1.(r0 := v), slot, v);
    SeqIs(Set(v), Restore(slot), k1);
    SeqIs(Save(slot), Seq(Set(v), Restore(slot)), k);
  }

  /** A guest store changes its byte and no other, and nothing else. */
  lemma PokeLaw(k: Kernel, at: Word, b: Byte)
    ensures var r := Exec(Poke(at, b), k);
            && r.out == Normal && r.k.r0 == k.r0 && SameStacks(k, r.k)
            && r.k.heap == k.heap.(mem := r.k.heap.mem) && |r.k.heap.mem| == |k.heap.mem|
            && (at < |k.heap.mem| ==> r.k.heap.mem[at] == b)
            && forall x :: 0 <= x < |k.heap.mem| && x != at ==> r.k.heap.mem[x] == k.heap.mem[x]
  {
  }

  /** Sequencing is associative, has no effect of its own, and ends with a leave; a branch
      depends on r0 being zero, and a call is its body. */
  lemma SeqLaws(p: Prog, q: Prog, r: Prog, k: Kernel)
    ensures Exec(Seq(Skip, p), k) == Exec(p, k) && Exec(Seq(p, Skip), k) == Exec(p, k)
    ensures Exec(Seq(Seq(p, q), r), k) == Exec(Seq(p, Seq(q, r)), k)
    ensures k.traps != [] ==> Exec(Seq(Exit, q), k) == Exec(Exit, k)
    ensures k.r0 == 0 ==> Exec(If(p, q), k) == Exec(q, k)
    ensures k.r0 != 0 ==> Exec(If(p, q), k) == Exec(p, k)
    ensures Exec(Call(p), k) == Exec(p, k)
    ensures Exec(Run(p), k) == RunTrap(p, k)
  {
    hide Exec, RunTrap;
    ExitLaw(k);
    BranchesAre(p, q, k);
    var e := Exec(p, k);
    LocalsAre(k, 0, 0);
    LocalsAre(e.k, 0, 0);
    SeqIs(Skip, p, k);
    SeqIs(p, Skip, k);
    SeqIs(Exit, q, k);
    SeqIs(p, q, k);
    SeqIs(Seq(p, q), r, k);
    SeqIs(p, Seq(q, r), k);
    SeqIs(q, r, e.k);
  }

  lemma BranchesAre(p: Prog, q: Prog, k: Kernel)
    ensures k.r0 == 0 ==> Exec(If(p, q), k) == Exec(q, k)
    ensures k.r0 != 0 ==> Exec(If(p, q), k) == Exec(p, k)
    ensures Exec(Call(p), k) == Exec(p, k)
    ensures Exec(Run(p), k) == RunTrap(p, k)
  {
    hide RunTrap, Leave, AllocShim, PopDestroyN, Destroy, Do;
  }

  /** The 33rd nested trap does not run its entry and yields -1; the 32nd runs it. */
  lemma TrapLimit(p: Prog, k: Kernel)
    ensures |k.traps| >= 32 ==> Exec(Run(p), k) == Ended(k.(rc := -1), Normal)
    ensures |k.traps| < 32 ==> Exec(Run(Skip), k) == Ended(k.(rc := 0), Normal)
  {
    hide UnwindTo;
    if |k.traps| < 32 {
      var e := k.(traps := k.traps + [Trap(|k.cleanup|, 0)]);
      assert Exec(Skip, e) == Ended(e, Normal);
      assert e.traps[..|k.traps|] == k.traps;
    }
  }
}
