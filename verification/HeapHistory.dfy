/** Whole histories of the heap: every sequence of allocator calls and guest
    writes keeps the headers and the live payloads intact. */
module HeapHistory {
  import opened Words
  import opened Guest
  import opened Wrappers
  import opened HeapModel

  // ---- bytes the allocator may touch ----

  /** Byte x belongs to the payload of cell k. */
  predicate InPayload(a: Abstract, k: nat, x: nat) {
    k < |a.cells| && Payload(a.base, a.cells, k) <= x < Payload(a.base, a.cells, k) + a.cells[k].size
  }

  /** Byte x belongs to the header of cell k. */
  predicate InHeader(a: Abstract, k: nat, x: nat) {
    k < |a.cells| && Header(a.base, a.cells, k) <= x < Header(a.base, a.cells, k) + 8
  }

  lemma PayloadNotHeader(h: Heap, a: Abstract, j: nat, k: nat, x: nat)
    requires Represents(h, a) && InPayload(a, j, x)
    ensures !InHeader(a, k, x) && x < h.brk
  {
    hide Extent;
    PayloadsDisjoint(h, a, j, j);
    if k < |a.cells| {
      PayloadsDisjoint(h, a, j, k);
    }
  }

  /** Memory that agrees on every header represents the same cells. */
  lemma RepresentsFrame(h: Heap, a: Abstract, m: Mem)
    requires Represents(h, a) && |m| == |h.mem|
    requires forall k: nat, x: nat :: InHeader(a, k, x) && x < |m| ==> m[x] == h.mem[x]
    ensures Represents(h.(mem := m), a)
  {
    hide Extent, Compose;
    forall k: nat | k < |a.cells|
      ensures HeaderOk(m, a.base, a.cells, k)
    {
      assert HeaderOk(h.mem, a.base, a.cells, k);
      var p := Header(a.base, a.cells, k);
      assert InHeader(a, k, p) && InHeader(a, k, p + 1) && InHeader(a, k, p + 2) && InHeader(a, k, p + 3);
      assert InHeader(a, k, p + 4) && InHeader(a, k, p + 5) && InHeader(a, k, p + 6) && InHeader(a, k, p + 7);
      assert m[p] == h.mem[p] && m[p + 1] == h.mem[p + 1] && m[p + 2] == h.mem[p + 2] && m[p + 3] == h.mem[p + 3];
      assert m[p + 4] == h.mem[p + 4] && m[p + 5] == h.mem[p + 5];
      assert m[p + 6] == h.mem[p + 6] && m[p + 7] == h.mem[p + 7];
    }
  }

  /** Zeroing writes exactly the bytes [p + i, p + n). */
  lemma {:induction false} ZeroWordsWrites(m: Mem, p: Word, i: nat, n: nat)
    requires i <= n && n % 4 == 0 && i % 4 == 0 && p + n <= |m| && p + n <= 0xFFFF_FFFF
    ensures var m' := ZeroWords(m, p, i, n);
            && |m'| == |m|
            && (forall x :: p + i <= x < p + n ==> m'[x] == 0)
            && (forall x :: 0 <= x < |m| && (x < p + i || p + n <= x) ==> m'[x] == m[x])
    decreases n - i
  {
    if i < n {
      WrapSmall(p + i);
      ZeroWordsWrites(W32(m, p + i, 0), p, i + 4, n);
    }
  }

  /** Allocating and freeing change no byte of any payload, live or free. */
  lemma AllocKeepsPayloads(h: Heap, a: Abstract, size: Word, j: nat, x: nat)
    requires Represents(h, a) && NoWrap(a, size) && InPayload(a, j, x)
    ensures x < |Alloc(h, size).heap.mem| && Alloc(h, size).heap.mem[x] == h.mem[x]
  {
    hide R32, W32, Extent, BlockSize, Need, Walk, Wrap, SizesOk;
    var s := BlockSize(size);
    BlockSizeIsNeed(size);
    PayloadsDisjoint(h, a, j, j);
    HeaderFirst(a.base, a.cells);
    WalkFinds(h, a, s, 0);
    var k := FirstFit(a.cells, s);
    if k < |a.cells| {
      var p := Header(a.base, a.cells, k);
      assert HeaderOk(h.mem, a.base, a.cells, k);
      PayloadsDisjoint(h, a, j, k);
      WrapSmall(p + 4);
      WriteElsewhere(h.mem, p + 4, 0, x);
    } else {
      WrapSmall(h.brk + 8 + s);
      WrapSmall(h.brk + 4);
      WriteElsewhere(h.mem, h.brk, s, x);
      WriteElsewhere(W32(h.mem, h.brk, s), h.brk + 4, 0, x);
    }
  }

  /** A pointer the heap handed out and that is not freed. */
  predicate IsLive(a: Abstract, ptr: nat) {
    exists k :: 0 <= k < |a.cells| && !a.cells[k].free && Payload(a.base, a.cells, k) == ptr
  }

  predicate IsBlock(a: Abstract, ptr: nat) {
    exists k :: 0 <= k < |a.cells| && Payload(a.base, a.cells, k) == ptr
  }

  lemma FreeCells(h: Heap, a: Abstract, k: nat)
    requires Represents(h, a) && k < |a.cells|
    ensures Payload(a.base, a.cells, k) > 0
    ensures AbsFree(a, Payload(a.base, a.cells, k)) == a.(cells := a.cells[k := a.cells[k].(free := true)])
  {
    hide Extent, R32;
    var ptr := Payload(a.base, a.cells, k);
    forall j | 0 <= j < |a.cells| && j != k
      ensures Payload(a.base, a.cells, j) != ptr
    {
      PayloadsDisjoint(h, a, j, k);
    }
    assert AbsFree(a, ptr).cells == a.cells[k := a.cells[k].(free := true)];
  }

  /** Freeing a block marks its cell; freeing null does nothing. */
  lemma FreeRefines(h: Heap, a: Abstract, ptr: Word)
    requires Represents(h, a) && (ptr == 0 || IsBlock(a, ptr))
    ensures Represents(Free(h, ptr), AbsFree(a, ptr))
  {
    hide Extent, R32, W32;
    if ptr != 0 {
      var k :| 0 <= k < |a.cells| && Payload(a.base, a.cells, k) == ptr;
      FreeCells(h, a, k);
      FlagWritten(h, a, k, 1);
      WrapSmall(ptr - 4);
    }
  }

  lemma FreeKeepsPayloads(h: Heap, a: Abstract, ptr: Word, j: nat, x: nat)
    requires Represents(h, a) && (ptr == 0 || IsBlock(a, ptr)) && InPayload(a, j, x)
    ensures x < |Free(h, ptr).mem| && Free(h, ptr).mem[x] == h.mem[x]
  {
    hide Extent, R32, W32;
    PayloadsDisjoint(h, a, j, j);
    if ptr != 0 {
      var k :| 0 <= k < |a.cells| && Payload(a.base, a.cells, k) == ptr;
      PayloadsDisjoint(h, a, j, k);
      WrapSmall(ptr - 4);
      WriteElsewhere(h.mem, ptr - 4, 1, x);
    }
  }

  /** The cell an allocation returns: live afterwards and big enough. */
  lemma AllocReturns(a: Abstract, size: Word) returns (k: nat)
    requires SizesOk(a.cells) && AbsAlloc(a, size).ptr != 0
    ensures var a' := AbsAlloc(a, size).heap;
            && k < |a'.cells| && !a'.cells[k].free && a'.cells[k].size >= Need(size)
            && Payload(a'.base, a'.cells, k) == AbsAlloc(a, size).ptr
  {
    hide Extent, Need;
    k := FirstFit(a.cells, Need(size));
    var a' := AbsAlloc(a, size).heap;
    if k < |a.cells| {
      SameHeaders(a.base, a.cells, a'.cells, k);
    } else {
      AppendHeaders(a.base, a.cells, Cell(Need(size), false), |a.cells|);
      HeaderLast(a.base, a.cells);
    }
  }

  lemma RoundedFits(size: Word)
    requires size <= 0xFFFF_FFF8
    ensures size <= Round8(size) <= Need(size) && Round8(size) % 4 == 0
  {
    Floor8(size + 7);
    WrapSmall(size + 7);
  }

  lemma Floor8(y: nat)
    ensures var q := y - y % 8; q == y / 8 * 8 && q % 4 == 0 && y - 7 <= q <= y
  {
    var k := y / 8;
    assert y == 8 * k + y % 8;
    assert 8 * k == 4 * (2 * k);
  }

  predicate IsZero(m: Mem, p: nat, n: nat) {
    p + n <= |m| && forall x :: p <= x < p + n ==> m[x] == 0
  }

  /** Payload bytes outside [p, p + n) are unchanged from m to m'. */
  ghost predicate PayloadsKept(a: Abstract, m: Mem, m': Mem, p: nat, n: nat) {
    && |m'| == |m|
    && forall j: nat, x: nat :: InPayload(a, j, x) && !(p <= x < p + n) ==> x < |m| && m'[x] == m[x]
  }

  /** A zeroed allocation: the same cells, and the requested bytes are zero. */
  lemma AllocZeroedRefines(h: Heap, a: Abstract, size: Word)
    requires Represents(h, a) && NoWrap(a, size)
    ensures AllocZeroed(h, size).ptr == AbsAlloc(a, size).ptr
    ensures Represents(AllocZeroed(h, size).heap, AbsAlloc(a, size).heap)
    ensures AllocZeroed(h, size).ptr != 0 ==> IsZero(AllocZeroed(h, size).heap.mem, AllocZeroed(h, size).ptr, size)
    ensures PayloadsKept(a, h.mem, AllocZeroed(h, size).heap.mem, AllocZeroed(h, size).ptr,
                         if AllocZeroed(h, size).ptr == 0 then 0 else Need(size))
  {
    hide Extent, R32, W32, Alloc, Need, Round8, AbsAlloc, Represents, ZeroWords, Payload, InHeader;
    AllocRefines(h, a, size);
    RoundedFits(size);
    var r, a' := Alloc(h, size), AbsAlloc(a, size).heap;
    AllocSameLength(h, size);
    var m' := AllocZeroed(h, size).heap.mem;
    if r.ptr != 0 {
      SizesOf(h, a);
      var k := AllocReturns(a, size);
      PayloadInside(r.heap, a', k);
      ZeroWordsWrites(r.heap.mem, r.ptr, 0, Round8(size));
      forall i: nat, x: nat | InHeader(a', i, x) && x < |m'|
        ensures m'[x] == r.heap.mem[x]
      {
        if InPayload(a', k, x) {
          PayloadNotHeader(r.heap, a', k, i, x);
        }
      }
      RepresentsFrame(r.heap, a', m');
      assert AllocZeroed(h, size).heap == r.heap.(mem := m');
    }
    forall j: nat, x: nat | InPayload(a, j, x) && !(r.ptr <= x < r.ptr + if r.ptr == 0 then 0 else Need(size))
      ensures x < |h.mem| && m'[x] == h.mem[x]
    {
      AllocKeepsPayloads(h, a, size, j, x);
    }
  }

  lemma SizesOf(h: Heap, a: Abstract)
    requires Represents(h, a)
    ensures SizesOk(a.cells)
  {
  }

  lemma PayloadInside(h: Heap, a: Abstract, k: nat)
    requires Represents(h, a) && k < |a.cells|
    ensures Payload(a.base, a.cells, k) + a.cells[k].size <= |h.mem|
    ensures Payload(a.base, a.cells, k) + a.cells[k].size <= 0xFFFF_FFFF
  {
    PayloadsDisjoint(h, a, k, k);
  }

  lemma AllocSameLength(h: Heap, size: Word)
    ensures |Alloc(h, size).heap.mem| == |h.mem|
  {
    hide W32, Walk;
  }

  // ---- histories ----

  datatype HeapOp = OpAlloc(size: Word) | OpAllocZeroed(size: Word) | OpFree(ptr: Word) | OpWrite(at: Word, v: Byte)

  function Apply(h: Heap, op: HeapOp): Result {
    match op
    case OpAlloc(size) => Alloc(h, size)
    case OpAllocZeroed(size) => AllocZeroed(h, size)
    case OpFree(ptr) => Result(Free(h, ptr), 0)
    case OpWrite(at, v) => Result(h.(mem := W8(h.mem, at, v)), 0)
  }

  function AbsApply(a: Abstract, op: HeapOp): AbstractResult {
    match op
    case OpAlloc(size) => AbsAlloc(a, size)
    case OpAllocZeroed(size) => AbsAlloc(a, size)
    case OpFree(ptr) => AbstractResult(AbsFree(a, ptr), 0)
    case OpWrite(_, _) => AbstractResult(a, 0)
  }

  /** Requests do not wrap, only live blocks are freed, and the guest writes only
      inside live payloads. */
  predicate Admissible(a: Abstract, op: HeapOp) {
    match op
    case OpAlloc(size) => NoWrap(a, size)
    case OpAllocZeroed(size) => NoWrap(a, size)
    case OpFree(ptr) => ptr == 0 || IsLive(a, ptr)
    case OpWrite(at, _) => exists k :: 0 <= k < |a.cells| && !a.cells[k].free && InPayload(a, k, at)
  }

  predicate AllAdmissible(a: Abstract, ops: seq<HeapOp>)
    decreases |ops|
  {
    ops == [] || (Admissible(a, ops[0]) && AllAdmissible(AbsApply(a, ops[0]).heap, ops[1..]))
  }

  datatype History = History(heap: Heap, ptrs: seq<Word>)
  datatype AbstractHistory = AbstractHistory(heap: Abstract, ptrs: seq<nat>)

  /** The state after the operations, and the pointer each returned. */
  function RunOps(h: Heap, ops: seq<HeapOp>): History
    decreases |ops|
  {
    if ops == [] then History(h, [])
    else
      var r := Apply(h, ops[0]);
      var rest := RunOps(r.heap, ops[1..]);
      rest.(ptrs := [r.ptr] + rest.ptrs)
  }

  function AbsRunOps(a: Abstract, ops: seq<HeapOp>): AbstractHistory
    decreases |ops|
  {
    if ops == [] then AbstractHistory(a, [])
    else
      var r := AbsApply(a, ops[0]);
      var rest := AbsRunOps(r.heap, ops[1..]);
      rest.(ptrs := [r.ptr] + rest.ptrs)
  }

  /** Cells are only ever added, and never change size. */
  predicate Grows(a: Abstract, b: Abstract) {
    && b.base == a.base && b.end == a.end && |a.cells| <= |b.cells|
    && forall k :: 0 <= k < |a.cells| ==> a.cells[k].size == b.cells[k].size
  }

  lemma StepGrows(a: Abstract, op: HeapOp)
    ensures Grows(a, AbsApply(a, op).heap)
  {
    hide Extent, Need;
  }

  lemma StepRefines(h: Heap, a: Abstract, op: HeapOp)
    requires Represents(h, a) && Admissible(a, op)
    ensures Apply(h, op).ptr == AbsApply(a, op).ptr
    ensures Represents(Apply(h, op).heap, AbsApply(a, op).heap)
  {
    hide Extent, Represents, Alloc, AllocZeroed, AbsAlloc, AbsFree, Free, InPayload, NoWrap, Payload;
    match op
    case OpAlloc(size) => AllocRefines(h, a, size);
    case OpAllocZeroed(size) => AllocZeroedRefines(h, a, size);
    case OpFree(ptr) => FreeRefines(h, a, ptr);
    case OpWrite(at, v) =>
      var k :| 0 <= k < |a.cells| && !a.cells[k].free && InPayload(a, k, at);
      var m' := W8(h.mem, at, v);
      forall i: nat, x: nat | InHeader(a, i, x) && x < |m'|
        ensures m'[x] == h.mem[x]
      {
        PayloadNotHeader(h, a, k, i, at);
      }
      RepresentsFrame(h, a, m');
  }

  /** Over every admissible history the in-memory heap returns the pointers of
      the abstract heap, and its headers keep representing the abstract cells. */
  lemma {:induction false} HistoryRefines(h: Heap, a: Abstract, ops: seq<HeapOp>)
    requires Represents(h, a) && AllAdmissible(a, ops)
    ensures RunOps(h, ops).ptrs == AbsRunOps(a, ops).ptrs
    ensures Represents(RunOps(h, ops).heap, AbsRunOps(a, ops).heap)
    ensures Grows(a, AbsRunOps(a, ops).heap)
    decreases |ops|
  {
    hide Apply, AbsApply, Represents, Admissible;
    if ops != [] {
      StepRefines(h, a, ops[0]);
      StepGrows(a, ops[0]);
      HistoryRefines(Apply(h, ops[0]).heap, AbsApply(a, ops[0]).heap, ops[1..]);
    }
  }

  lemma EightsAdd(x: nat, y: nat)
    requires x % 8 == 0 && y % 8 == 0
    ensures (x + y) % 8 == 0
  {
    var p, q := x / 8, y / 8;
    assert x + y == 8 * (p + q);
  }

  lemma FrontierAligned(a: Abstract)
    requires a.base % 8 == 0 && SizesOk(a.cells)
    ensures Frontier(a) % 8 == 0
  {
    hide Extent, SizesOk;
    ExtentAligned(a.cells);
    EightsAdd(a.base, Extent(a.cells));
  }

  /** The cells tile [base, brk) exactly; payloads are aligned, in range and disjoint. */
  ghost predicate Tiled(h: Heap, a: Abstract) {
    && h.brk == h.base + Extent(a.cells) && h.base % 8 == 0 && h.brk % 8 == 0
    && (forall k :: 0 <= k < |a.cells| ==>
          && a.cells[k].size > 0 && a.cells[k].size % 8 == 0
          && Payload(a.base, a.cells, k) % 8 == 0 && h.base < Payload(a.base, a.cells, k)
          && Payload(a.base, a.cells, k) + a.cells[k].size <= h.brk <= h.end)
    && (forall j: nat, k: nat, x: nat :: j < k < |a.cells| && InPayload(a, j, x) ==> !InPayload(a, k, x))
  }

  /** What representation means at any point of a history. */
  lemma HeapSafe(h: Heap, a: Abstract)
    requires Represents(h, a)
    ensures Tiled(h, a)
  {
    hide Extent, HeaderOk;
    FrontierAligned(a);
    forall k: nat | k < |a.cells|
      ensures Payload(a.base, a.cells, k) % 8 == 0 && h.base < Payload(a.base, a.cells, k)
      ensures Payload(a.base, a.cells, k) + a.cells[k].size <= h.brk <= h.end
    {
      PayloadsDisjoint(h, a, k, k);
    }
    forall j: nat, k: nat, x: nat | j < k < |a.cells| && InPayload(a, j, x)
      ensures !InPayload(a, k, x)
    {
      PayloadsDisjoint(h, a, j, k);
    }
  }

  /** A heap initialised over bytes of the guest window starts with no cells. */
  lemma InitRepresents(mem: Mem, base: Word, size: Word)
    requires base + 7 <= 0xFFFF_FFFF && base + size <= 0xFFFF_FFFF && base + size <= |mem|
    ensures Represents(Init(mem, base, size), Abstract(Round8(base), base + size, []))
    ensures base <= Round8(base) < base + 8
  {
    WrapSmall(base + 7);
    WrapSmall(base + size);
  }

  /** After ops on a heap fresh over [base, base + size): it represents the abstract
      heap after them, which its cells tile, and every pointer was the abstract one. */
  ghost predicate SafeAfter(mem: Mem, base: Word, size: Word, ops: seq<HeapOp>) {
    var a0, h0 := Abstract(Round8(base), base + size, []), Init(mem, base, size);
    var a, h := AbsRunOps(a0, ops).heap, RunOps(h0, ops).heap;
    && RunOps(h0, ops).ptrs == AbsRunOps(a0, ops).ptrs && Represents(h, a) && Tiled(h, a)
    && h.base == Round8(base) && h.end == base + size
  }

  /** Heap safety over all histories, whatever admissible operations they hold. */
  lemma HeapSafeAlways(mem: Mem, base: Word, size: Word, ops: seq<HeapOp>)
    requires base + 7 <= 0xFFFF_FFFF && base + size <= 0xFFFF_FFFF && base + size <= |mem|
    requires AllAdmissible(Abstract(Round8(base), base + size, []), ops)
    ensures SafeAfter(mem, base, size, ops)
  {
    hide AbsRunOps, RunOps, Init, Tiled, Round8, HeaderOk, SizesOk;
    var a0, h0 := Abstract(Round8(base), base + size, []), Init(mem, base, size);
    InitRepresents(mem, base, size);
    HistoryRefines(h0, a0, ops);
    HeapSafe(RunOps(h0, ops).heap, AbsRunOps(a0, ops).heap);
  }

  // ---- bounds a caller can check ----

  /** In a heap that ends 16 bytes below 2 GiB no request below 2 GiB wraps. */
  lemma ModestNeverWraps(h: Heap, a: Abstract, size: Word)
    requires Represents(h, a) && a.base <= 0x7FFF_FFF0 && a.end <= 0x7FFF_FFF0 && size <= 0x7FFF_FFFF
    ensures NoWrap(a, size)
  {
    hide Extent, HeaderOk;
    if a.base <= a.end {
      FrontierBound(h, a);
    } else {
      NoCells(h, a);
    }
  }

  /** A heap so small that the rounded base passes its end has no cells. */
  lemma NoCells(h: Heap, a: Abstract)
    requires Represents(h, a) && a.end < a.base
    ensures a.cells == [] && Frontier(a) == a.base && h.brk == h.base
  {
    assert Extent([]) == 0;
  }

  /** Requests below 2 GiB, frees of live blocks, writes to live payloads. */
  predicate Modest(a: Abstract, op: HeapOp) {
    match op
    case OpAlloc(size) => size <= 0x7FFF_FFFF
    case OpAllocZeroed(size) => size <= 0x7FFF_FFFF
    case _ => Admissible(a, op)
  }

  predicate AllModest(a: Abstract, ops: seq<HeapOp>)
    decreases |ops|
  {
    ops == [] || (Modest(a, ops[0]) && AllModest(AbsApply(a, ops[0]).heap, ops[1..]))
  }

  lemma {:induction false} ModestAdmissible(h: Heap, a: Abstract, ops: seq<HeapOp>)
    requires Represents(h, a) && a.base <= 0x7FFF_FFF0 && a.end <= 0x7FFF_FFF0 && AllModest(a, ops)
    ensures AllAdmissible(a, ops)
    decreases |ops|
  {
    hide Represents, NoWrap, AbsApply, Apply;
    if ops != [] {
      if ops[0].OpAlloc? || ops[0].OpAllocZeroed? {
        ModestNeverWraps(h, a, ops[0].size);
      }
      StepRefines(h, a, ops[0]);
      StepGrows(a, ops[0]);
      ModestAdmissible(Apply(h, ops[0]).heap, AbsApply(a, ops[0]).heap, ops[1..]);
    }
  }

  lemma RoundedBelow(base: Word)
    requires base <= 0x7FFF_FFF0
    ensures Round8(base) <= 0x7FFF_FFF0
  {
    Floor8(base + 7);
    WrapSmall(base + 7);
  }

  /** Heap safety from bounds alone: a heap that ends 16 bytes below 2 GiB, under
      requests below 2 GiB. */
  lemma HeapSafeBelow2GiB(mem: Mem, base: Word, size: Word, ops: seq<HeapOp>)
    requires base + size <= 0x7FFF_FFF0 && base + size <= |mem|
    requires AllModest(Abstract(Round8(base), base + size, []), ops)
    ensures SafeAfter(mem, base, size, ops)
  {
    hide Represents, Round8, SafeAfter;
    InitRepresents(mem, base, size);
    RoundedBelow(base);
    ModestAdmissible(Init(mem, base, size), Abstract(Round8(base), base + size, []), ops);
    HeapSafeAlways(mem, base, size, ops);
  }

  predicate SameByte(m: Mem, m': Mem, x: nat) {
    x < |m| && x < |m'| && m'[x] == m[x]
  }

  /** A live payload keeps its bytes through every allocator call. */
  lemma StepKeepsPayload(h: Heap, a: Abstract, op: HeapOp, j: nat, x: nat)
    requires Represents(h, a) && Admissible(a, op) && !op.OpWrite?
    requires InPayload(a, j, x) && !a.cells[j].free
    ensures SameByte(h.mem, Apply(h, op).heap.mem, x)
  {
    hide Extent, Represents, Alloc, AllocZeroed, AbsAlloc, Free, NoWrap, Payload, Need;
    PayloadByte(h, a, j, x);
    if op.OpAlloc? {
      AllocKeepsPayloads(h, a, op.size, j, x);
    } else if op.OpFree? {
      FreeKeepsPayloads(h, a, op.ptr, j, x);
    } else {
      AllocZeroedRefines(h, a, op.size);
      FreshBlock(h, a, op.size, j, x);
    }
  }

  lemma PayloadByte(h: Heap, a: Abstract, j: nat, x: nat)
    requires Represents(h, a) && InPayload(a, j, x)
    ensures x < |h.mem|
  {
    PayloadsDisjoint(h, a, j, j);
  }

  /** A new block does not overlap a live one. */
  lemma FreshBlock(h: Heap, a: Abstract, size: Word, j: nat, x: nat)
    requires Represents(h, a) && NoWrap(a, size) && InPayload(a, j, x) && !a.cells[j].free
    ensures var p := AbsAlloc(a, size).ptr; p != 0 ==> !(p <= x < p + Need(size))
  {
    hide Extent, Need, R32;
    PayloadsDisjoint(h, a, j, j);
    var k := FirstFit(a.cells, Need(size));
    if k < |a.cells| {
      PayloadsDisjoint(h, a, j, k);
    }
  }

  // ---- exactly when a request is served right ----

  lemma HugeRequest(h: Heap, size: Word)
    requires size > 0xFFFF_FFF8
    ensures Alloc(h, size) == Alloc(h, 8) && BlockSize(size) == BlockSize(8)
  {
    assert BlockSize(size) == BlockSize(8);
  }

  lemma HugeNeverFits(h: Heap, a: Abstract, size: Word)
    requires Represents(h, a) && size > 0xFFFF_FFF8
    ensures AbsAlloc(a, size) == AbstractResult(a, 0)
  {
    hide Extent, R32;
    assert Need(size) == 0x1_0000_0000;
    var k := FirstFit(a.cells, Need(size));
    if k < |a.cells| {
      PayloadsDisjoint(h, a, k, k);
    }
  }

  lemma NoFitWalk(h: Heap, a: Abstract, s: Word)
    requires Represents(h, a) && FirstFit(a.cells, s) == |a.cells|
    ensures Walk(h.mem, h.base, h.brk, s) == None
  {
    HeaderFirst(a.base, a.cells);
    WalkFinds(h, a, s, 0);
  }

  /** Is a request served as the abstract heap serves it? */
  predicate ServedRight(h: Heap, a: Abstract, size: Word) {
    Alloc(h, size).ptr == AbsAlloc(a, size).ptr && Represents(Alloc(h, size).heap, AbsAlloc(a, size).heap)
  }

  /** For every request on every represented heap: the code serves it as the abstract
      heap does if and only if nothing wraps; or the request is so large that it is taken
      for one of 8 bytes and those are not available either; or the block would take
      exactly the bytes from the frontier round to the frontier again; or the rounded base
      has passed the end and the wrapped frontier has too. */
  lemma AllocExact(h: Heap, a: Abstract, size: Word)
    requires Represents(h, a)
    ensures ServedRight(h, a, size)
            <==> || NoWrap(a, size)
                 || (size > 0xFFFF_FFF8 && NoWrap(a, 8) && AbsAlloc(a, 8).ptr == 0)
                 || (h.brk == 0xFFFF_FFF8 && 0xFFFF_FFF0 < size <= 0xFFFF_FFF8)
                 || (h.end < h.base && Wrap(h.brk + 8 + BlockSize(size)) > h.end)
  {
    hide Extent, R32, W32, Walk, HeaderOk, SizesOk, Alloc, AbsAlloc, Need, NoWrap, Represents, BlockSize, Wrap;
    SameBase(h, a);
    if a.end < a.base {
      TinyHeap(h, a, size);
    } else if NoWrap(a, size) {
      AllocRefines(h, a, size);
    } else if size <= 0xFFFF_FFF8 {
      NothingServed(h, a, size);
      LargestBlock(size);
      WrapTakesRest(h, a, size);
    } else {
      HugeRequest(h, size);
      HugeNeverFits(h, a, size);
      LargestBlock(8);
      if NoWrap(a, 8) {
        AllocRefines(h, a, 8);
        if AbsAlloc(a, 8).ptr == 0 { NoBlockNoChange(a, 8); }
      } else {
        NothingServed(h, a, 8);
        WrapTakesRest(h, a, 8);
      }
    }
  }

  /** With the base past the end nothing is ever served; the code agrees unless the
      wrapped frontier falls back inside. */
  lemma TinyHeap(h: Heap, a: Abstract, size: Word)
    requires Represents(h, a) && a.end < a.base
    ensures ServedRight(h, a, size) <==> Wrap(h.brk + 8 + BlockSize(size)) > h.end
    ensures NoWrap(a, size) || (size > 0xFFFF_FFF8 && NoWrap(a, 8))
            || (h.brk == 0xFFFF_FFF8 && 0xFFFF_FFF0 < size <= 0xFFFF_FFF8)
            ==> Wrap(h.brk + 8 + BlockSize(size)) > h.end
  {
    hide R32, W32, Walk, HeaderOk, SizesOk, BlockSize, Need, Wrap;
    NoCells(h, a);
    WalkDone(h.mem, h.brk, h.brk, BlockSize(size));
    WrapNear(h.brk + 8 + BlockSize(size));
    TopAligned(h, a);
    NeedPositive(size);
    if size <= 0xFFFF_FFF8 {
      BlockSizeIsNeed(size);
      LargestBlock(size);
    } else {
      HugeRequest(h, size);
      BlockSizeIsNeed(8);
      NeedEight();
    }
  }

  lemma NeedPositive(size: Word)
    ensures Need(size) >= 8
  {
  }

  lemma NeedEight()
    ensures Need(8) == 8
  {
  }

  /** A request that wraps finds no free cell and, in the abstract heap, no room. */
  lemma NothingServed(h: Heap, a: Abstract, size: Word)
    requires Represents(h, a) && a.base <= a.end && size <= 0xFFFF_FFF8 && !NoWrap(a, size)
    ensures AbsAlloc(a, size) == AbstractResult(a, 0)
    ensures FirstFit(a.cells, BlockSize(size)) == |a.cells| && h.brk + 8 + BlockSize(size) >= 0x1_0000_0000
  {
    hide Extent, R32, BlockSize, Need;
    BlockSizeIsNeed(size);
    FrontierBound(h, a);
  }

  lemma LargestBlock(size: Word)
    requires size <= 0xFFFF_FFF8
    ensures BlockSize(size) == 0xFFFF_FFF8 <==> size > 0xFFFF_FFF0
  {
    BlockSizeIsNeed(size);
  }

  /** When the new frontier wraps, the code moves it, below or onto the old one. It
      reports failure and changes nothing exactly when it moves nowhere. */
  lemma WrapTakesRest(h: Heap, a: Abstract, size: Word)
    requires Represents(h, a) && a.base <= a.end
    requires FirstFit(a.cells, BlockSize(size)) == |a.cells| && h.brk + 8 + BlockSize(size) >= 0x1_0000_0000
    ensures var r := Alloc(h, size);
            r.ptr == 0 && Represents(r.heap, a) <==> h.brk == 0xFFFF_FFF8 && BlockSize(size) == 0xFFFF_FFF8
  {
    hide Extent, R32, W32, Walk, HeaderOk, SizesOk, BlockSize;
    var s := BlockSize(size);
    FrontierBound(h, a);
    TopAligned(h, a);
    NoFitWalk(h, a, s);
    WrapNear(h.brk + 8);
    WrapNear(h.brk + 8 + s);
    var m := W32(W32(h.mem, h.brk, s), Wrap(h.brk + 4), 0);
    assert Alloc(h, size) == Result(h.(mem := m, brk := Wrap(h.brk + 8 + s)), Wrap(h.brk + 8));
    if h.brk == 0xFFFF_FFF8 && s == 0xFFFF_FFF8 {
      AboveCells(h, a, s);
    }
  }

  lemma TopAligned(h: Heap, a: Abstract)
    requires Represents(h, a)
    ensures h.brk % 8 == 0 && h.brk <= 0xFFFF_FFF8
  {
    hide Extent, HeaderOk;
    FrontierAligned(a);
  }

  /** A header written at the frontier touches no header below it. */
  lemma AboveCells(h: Heap, a: Abstract, s: Word)
    requires Represents(h, a) && h.brk == 0xFFFF_FFF8
    ensures Represents(h.(mem := W32(W32(h.mem, h.brk, s), h.brk + 4, 0)), a)
  {
    hide Extent, R32, HeaderOk, W32;
    var m1 := W32(h.mem, h.brk, s);
    var m := W32(m1, h.brk + 4, 0);
    forall k: nat, x: nat | InHeader(a, k, x) && x < |m|
      ensures m[x] == h.mem[x]
    {
      PayloadsDisjoint(h, a, k, k);
      WriteElsewhere(h.mem, h.brk, s, x);
      WriteElsewhere(m1, h.brk + 4, 0, x);
    }
    RepresentsFrame(h, a, m);
  }

  lemma NoBlockNoChange(a: Abstract, size: nat)
    requires AbsAlloc(a, size).ptr == 0
    ensures AbsAlloc(a, size).heap == a
  {
    hide Extent, Need;
  }

  lemma FrontierBound(h: Heap, a: Abstract)
    requires Represents(h, a) && a.base <= a.end
    ensures a.base <= Frontier(a) <= a.end
  {
  }

  /** A request that wraps: with the frontier at 16 and 4 GiB - 16 bytes asked
      for, the code reports a block and moves the frontier back below it. */
  lemma WrapHandsOutTooMuch(h: Heap)
    requires h.base == 16 && h.brk == 16 && h.end == 0x1000 && |h.mem| == 0x1000
    ensures Alloc(h, 0xFFFF_FFF0).ptr == 24 && Alloc(h, 0xFFFF_FFF0).heap.brk == 8
  {
    hide W32, R32;
    assert BlockSize(0xFFFF_FFF0) == 0xFFFF_FFF0;
    assert Walk(h.mem, 16, 16, 0xFFFF_FFF0) == None;
  }
}
