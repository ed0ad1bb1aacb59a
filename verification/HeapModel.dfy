/** The guest heap: headers inside guest memory, and the ordered list of
    (size, free) cells they stand for. */
module HeapModel {
  import opened Words
  import opened Guest
  import opened Wrappers

  // ---- the allocator on values ----

  /** The allocator's globals and the guest memory. */
  datatype Heap = Heap(base: Word, end: Word, brk: Word, mem: Mem)

  /** `(x + 7u) & ~7u`. */
  function Round8(x: Word): Word {
    Wrap(x + 7) - Wrap(x + 7) % 8
  }

  function BlockSize(size: Word): (s: Word)
    ensures s % 8 == 0 && s > 0
  {
    if Round8(size) == 0 then 8 else Round8(size)
  }

  function Init(mem: Mem, base: Word, size: Word): Heap {
    Heap(Round8(base), Wrap(base + size), Round8(base), mem)
  }

  /** The walk over headers from p: the first free block of at least s bytes. */
  function Walk(m: Mem, p: nat, brk: Word, s: Word): Option<Word>
    decreases brk - p
  {
    if p >= brk then None
    else if R32(m, Wrap(p + 4)) != 0 && R32(m, p) >= s then Some(p)
    else Walk(m, p + 8 + R32(m, p), brk, s)
  }

  datatype Result = Result(heap: Heap, ptr: Word)

  function Alloc(h: Heap, size: Word): Result {
    var s := BlockSize(size);
    match Walk(h.mem, h.base, h.brk, s)
    case Some(p) => Result(h.(mem := W32(h.mem, Wrap(p + 4), 0)), Wrap(p + 8))
    case None =>
      if Wrap(h.brk + 8 + s) > h.end then Result(h, 0)
      else Result(h.(mem := W32(W32(h.mem, h.brk, s), Wrap(h.brk + 4), 0), brk := Wrap(h.brk + 8 + s)),
                  Wrap(h.brk + 8))
  }

  /** Zero words at p, p+4, ... below p+n. */
  function ZeroWords(m: Mem, p: Word, i: nat, n: nat): Mem
    decreases n - i
  {
    if i >= n then m else ZeroWords(W32(m, Wrap(p + i), 0), p, i + 4, n)
  }

  function AllocZeroed(h: Heap, size: Word): Result {
    var r := Alloc(h, size);
    if r.ptr == 0 then r else r.(heap := r.heap.(mem := ZeroWords(r.heap.mem, r.ptr, 0, Round8(size))))
  }

  function Free(h: Heap, ptr: Word): Heap {
    if ptr == 0 then h else h.(mem := W32(h.mem, Wrap(ptr - 4), 1))
  }

  // ---- the abstract heap ----

  datatype Cell = Cell(size: nat, free: bool)

  /** Bytes taken by the cells, headers included. */
  function Extent(cells: seq<Cell>): nat {
    if cells == [] then 0 else Extent(cells[..|cells| - 1]) + 8 + cells[|cells| - 1].size
  }

  function Header(base: nat, cells: seq<Cell>, k: nat): nat
    requires k <= |cells|
  {
    base + Extent(cells[..k])
  }

  function Payload(base: nat, cells: seq<Cell>, k: nat): nat
    requires k < |cells|
  {
    Header(base, cells, k) + 8
  }

  /** The first free cell of at least s bytes, or the number of cells. */
  function FirstFit(cells: seq<Cell>, s: nat): (k: nat)
    ensures k <= |cells|
    ensures k < |cells| ==> cells[k].free && cells[k].size >= s
    ensures forall j :: 0 <= j < k ==> !(cells[j].free && cells[j].size >= s)
  {
    if cells == [] then 0
    else if cells[0].free && cells[0].size >= s then 0
    else
      var k := FirstFit(cells[1..], s);
      assert forall j :: 1 <= j <= k ==> cells[j] == cells[1..][j - 1] || j == |cells|;
      k + 1
  }

  /** Bytes a request needs: the next multiple of 8, at least 8. */
  function Need(size: nat): nat {
    if size == 0 then 8 else (size + 7) / 8 * 8
  }

  datatype Abstract = Abstract(base: nat, end: nat, cells: seq<Cell>)

  function Frontier(a: Abstract): nat {
    a.base + Extent(a.cells)
  }

  datatype AbstractResult = AbstractResult(heap: Abstract, ptr: nat)

  /** Lowest free cell that fits, else a new cell at the frontier, else nothing. */
  function AbsAlloc(a: Abstract, size: nat): AbstractResult {
    var need := Need(size);
    var k := FirstFit(a.cells, need);
    if k < |a.cells| then
      AbstractResult(a.(cells := a.cells[k := a.cells[k].(free := false)]), Payload(a.base, a.cells, k))
    else if Frontier(a) + 8 + need > a.end then AbstractResult(a, 0)
    else AbstractResult(a.(cells := a.cells + [Cell(need, false)]), Frontier(a) + 8)
  }

  /** Freeing marks the cell whose payload starts at ptr. */
  function AbsFree(a: Abstract, ptr: nat): Abstract {
    if ptr == 0 then a
    else a.(cells := seq(|a.cells|, j requires 0 <= j < |a.cells| =>
                         if Payload(a.base, a.cells, j) == ptr then a.cells[j].(free := true) else a.cells[j]))
  }

  // ---- representation ----

  predicate SizesOk(cells: seq<Cell>) {
    forall k :: 0 <= k < |cells| ==> cells[k].size > 0 && cells[k].size % 8 == 0
  }

  /** The header of cell k holds its size and its free flag. */
  predicate HeaderOk(m: Mem, base: nat, cells: seq<Cell>, k: nat)
    requires k < |cells|
  {
    var p := Header(base, cells, k);
    && p + 8 <= |m| && p + 8 < 0x1_0000_0000
    && R32(m, p) == cells[k].size && (R32(m, p + 4) != 0 <==> cells[k].free)
  }

  /** The headers in guest memory tile [base, brk) as the abstract cells say. */
  predicate Represents(h: Heap, a: Abstract) {
    && a.base == h.base && a.end == h.end && a.base % 8 == 0
    && h.brk == Frontier(a) && h.end <= |h.mem|
    && (a.cells == [] || Frontier(a) <= a.end)
    && SizesOk(a.cells)
    && forall k :: 0 <= k < |a.cells| ==> HeaderOk(h.mem, a.base, a.cells, k)
  }

  // ---- geometry of the cells ----

  /** Each header follows the payload before it. */
  lemma HeaderNext(base: nat, cells: seq<Cell>, k: nat)
    requires k < |cells|
    ensures Header(base, cells, k + 1) == Payload(base, cells, k) + cells[k].size
  {
    assert cells[..k + 1][..k] == cells[..k];
  }

  lemma {:induction false} HeaderOrder(base: nat, cells: seq<Cell>, j: nat, k: nat)
    requires j < k <= |cells|
    ensures Payload(base, cells, j) + cells[j].size <= Header(base, cells, k)
    decreases k - j
  {
    HeaderNext(base, cells, j);
    if j + 1 < k {
      HeaderOrder(base, cells, j + 1, k);
    }
  }

  lemma HeaderLast(base: nat, cells: seq<Cell>)
    ensures Header(base, cells, |cells|) == base + Extent(cells)
  {
    assert cells[..|cells|] == cells;
  }

  lemma {:induction false} ExtentAligned(cells: seq<Cell>)
    requires SizesOk(cells)
    ensures Extent(cells) % 8 == 0
  {
    if cells != [] {
      ExtentAligned(cells[..|cells| - 1]);
    }
  }

  /** Changing free flags moves nothing. */
  lemma {:induction false} SameSizes(x: seq<Cell>, y: seq<Cell>)
    requires |x| == |y| && forall k :: 0 <= k < |x| ==> x[k].size == y[k].size
    ensures Extent(x) == Extent(y)
  {
    if x != [] {
      SameSizes(x[..|x| - 1], y[..|y| - 1]);
    }
  }

  lemma SameHeaders(base: nat, x: seq<Cell>, y: seq<Cell>, k: nat)
    requires |x| == |y| && (forall k :: 0 <= k < |x| ==> x[k].size == y[k].size) && k <= |x|
    ensures Header(base, x, k) == Header(base, y, k)
  {
    SameSizes(x[..k], y[..k]);
  }

  /** Appending leaves the earlier headers where they were. */
  lemma AppendHeaders(base: nat, x: seq<Cell>, c: Cell, k: nat)
    requires k <= |x|
    ensures Header(base, x + [c], k) == Header(base, x, k)
  {
    assert (x + [c])[..k] == x[..k];
  }

  /** Payloads are 8-aligned, inside the heap, and pairwise disjoint. */
  lemma PayloadsDisjoint(h: Heap, a: Abstract, j: nat, k: nat)
    requires Represents(h, a) && j < |a.cells| && k < |a.cells|
    ensures Payload(a.base, a.cells, k) % 8 == 0
    ensures h.base + 8 <= Payload(a.base, a.cells, k)
    ensures Payload(a.base, a.cells, k) + a.cells[k].size <= h.brk <= h.end
    ensures j != k ==> Payload(a.base, a.cells, j) + a.cells[j].size <= Header(a.base, a.cells, k)
                       || Payload(a.base, a.cells, k) + a.cells[k].size <= Header(a.base, a.cells, j)
  {
    hide Extent, R32, Wrap;
    ExtentAligned(a.cells[..k]);
    HeaderLast(a.base, a.cells);
    HeaderOrder(a.base, a.cells, k, |a.cells|);
    if j < k {
      HeaderOrder(a.base, a.cells, j, k);
    } else if k < j {
      HeaderOrder(a.base, a.cells, k, j);
    }
  }

  // ---- the walk ----

  /** From header k the walk finds the first fit among the cells from k on. */
  lemma {:induction false} WalkFinds(h: Heap, a: Abstract, s: Word, k: nat)
    requires Represents(h, a) && k <= |a.cells|
    requires forall j :: 0 <= j < k ==> !(a.cells[j].free && a.cells[j].size >= s)
    ensures var f := FirstFit(a.cells, s);
            Walk(h.mem, Header(a.base, a.cells, k), h.brk, s) ==
            if f < |a.cells| then Some(Header(a.base, a.cells, f)) else None
    decreases |a.cells| - k
  {
    hide R32, W32, Extent, Wrap;
    HeaderLast(a.base, a.cells);
    var f := FirstFit(a.cells, s);
    if k < |a.cells| {
      var p := Header(a.base, a.cells, k);
      HeaderOrder(a.base, a.cells, k, |a.cells|);
      HeaderNext(a.base, a.cells, k);
      assert HeaderOk(h.mem, a.base, a.cells, k);
      WrapSmall(p + 4);
      if a.cells[k].free && a.cells[k].size >= s {
        assert f == k;
      } else {
        WalkFinds(h, a, s, k + 1);
      }
    }
  }

  lemma HeaderFirst(base: nat, cells: seq<Cell>)
    ensures Header(base, cells, 0) == base
  {
    assert cells[..0] == [];
  }

  /** A header below the frontier is that of a cell, and the next one follows it. */
  lemma HeaderHere(h: Heap, a: Abstract, k: nat)
    requires Represents(h, a) && k <= |a.cells| && Header(a.base, a.cells, k) < h.brk
    ensures k < |a.cells| && Wrap(Header(a.base, a.cells, k) + 4) == Header(a.base, a.cells, k) + 4
    ensures R32(h.mem, Header(a.base, a.cells, k)) == a.cells[k].size
    ensures R32(h.mem, Header(a.base, a.cells, k) + 4) != 0 <==> a.cells[k].free
    ensures Header(a.base, a.cells, k + 1) == Header(a.base, a.cells, k) + 8 + a.cells[k].size <= h.brk
  {
    hide Extent, R32;
    HeaderLast(a.base, a.cells);
    if k < |a.cells| {
      assert HeaderOk(h.mem, a.base, a.cells, k);
      HeaderNext(a.base, a.cells, k);
      HeaderOrder(a.base, a.cells, k, |a.cells|);
    }
  }

  /** One turn of the walk. */
  lemma WalkStep(m: Mem, p: Word, brk: Word, s: Word)
    requires p < brk && p + 4 < 0x1_0000_0000
    ensures R32(m, p + 4) != 0 && R32(m, p) >= s ==> Walk(m, p, brk, s) == Some(p)
    ensures !(R32(m, p + 4) != 0 && R32(m, p) >= s) ==> Walk(m, p, brk, s) == Walk(m, p + 8 + R32(m, p), brk, s)
  {
    hide R32;
    WrapSmall(p + 4);
  }

  lemma WalkDone(m: Mem, p: Word, brk: Word, s: Word)
    requires p >= brk
    ensures Walk(m, p, brk, s) == None
  {
  }

  lemma SameBase(h: Heap, a: Abstract)
    requires Represents(h, a)
    ensures a.base == h.base && a.end == h.end && h.brk == Frontier(a)
  {
  }

  // ---- one allocation ----

  /** Nothing in the request wraps: it can be rounded up, and either a free cell
      fits or the new frontier is a 32-bit number. */
  predicate NoWrap(a: Abstract, size: Word) {
    && size <= 0xFFFF_FFF8
    && (FirstFit(a.cells, Need(size)) < |a.cells| || Frontier(a) + 8 + Need(size) < 0x1_0000_0000)
  }

  lemma BlockSizeIsNeed(size: Word)
    requires size <= 0xFFFF_FFF8
    ensures BlockSize(size) == Need(size)
  {
  }

  /** Clearing or setting the flag of cell k represents the flagged cells. */
  lemma FlagWritten(h: Heap, a: Abstract, k: nat, v: Word)
    requires Represents(h, a) && k < |a.cells|
    ensures var p := Header(a.base, a.cells, k);
            && p + 8 <= |h.mem| && p + 8 < 0x1_0000_0000
            && Represents(h.(mem := W32(h.mem, p + 4, v)), a.(cells := a.cells[k := a.cells[k].(free := v != 0)]))
  {
    hide R32, W32, Extent;
    var p := Header(a.base, a.cells, k);
    var cells' := a.cells[k := a.cells[k].(free := v != 0)];
    assert HeaderOk(h.mem, a.base, a.cells, k);
    var m' := W32(h.mem, p + 4, v);
    SameSizes(a.cells, cells');
    ReadBack(h.mem, p + 4, v);
    forall j | 0 <= j < |cells'|
      ensures HeaderOk(m', a.base, cells', j)
    {
      assert HeaderOk(h.mem, a.base, a.cells, j);
      SameHeaders(a.base, a.cells, cells', j);
      var q := Header(a.base, a.cells, j);
      if j != k {
        PayloadsDisjoint(h, a, j, k);
        ReadElsewhere(h.mem, p + 4, v, q);
        ReadElsewhere(h.mem, p + 4, v, q + 4);
      } else {
        ReadElsewhere(h.mem, p + 4, v, q);
      }
    }
  }

  /** A header written at the frontier represents one more cell. */
  lemma CellAppended(h: Heap, a: Abstract, s: Word)
    requires Represents(h, a) && s > 0 && s % 8 == 0 && Frontier(a) + 8 + s <= a.end
    ensures var m' := W32(W32(h.mem, h.brk, s), h.brk + 4, 0);
            Represents(h.(mem := m', brk := h.brk + 8 + s), a.(cells := a.cells + [Cell(s, false)]))
  {
    hide R32, W32, Extent;
    var m1 := W32(h.mem, h.brk, s);
    var m' := W32(m1, h.brk + 4, 0);
    var c := Cell(s, false);
    var cells' := a.cells + [c];
    ExtentSnoc(a.cells, c);
    HeaderLast(a.base, a.cells);
    ReadBack(h.mem, h.brk, s);
    ReadElsewhere(m1, h.brk + 4, 0, h.brk);
    ReadBack(m1, h.brk + 4, 0);
    forall j | 0 <= j < |cells'|
      ensures HeaderOk(m', a.base, cells', j)
    {
      AppendHeaders(a.base, a.cells, c, j);
      var q := Header(a.base, a.cells, j);
      if j < |a.cells| {
        assert HeaderOk(h.mem, a.base, a.cells, j);
        HeaderOrder(a.base, a.cells, j, |a.cells|);
        ReadElsewhere(h.mem, h.brk, s, q);
        ReadElsewhere(h.mem, h.brk, s, q + 4);
        ReadElsewhere(m1, h.brk + 4, 0, q);
        ReadElsewhere(m1, h.brk + 4, 0, q + 4);
      }
    }
  }

  lemma ExtentSnoc(x: seq<Cell>, c: Cell)
    ensures Extent(x + [c]) == Extent(x) + 8 + c.size
  {
    assert (x + [c])[..|x|] == x;
  }

  /** A request that does not wrap is served as the abstract heap serves it. */
  lemma AllocRefines(h: Heap, a: Abstract, size: Word)
    requires Represents(h, a) && NoWrap(a, size)
    ensures Alloc(h, size).ptr == AbsAlloc(a, size).ptr
    ensures Represents(Alloc(h, size).heap, AbsAlloc(a, size).heap)
  {
    hide R32, W32, Extent, BlockSize, Need, Walk, Wrap, HeaderOk, SizesOk;
    var s := BlockSize(size);
    BlockSizeIsNeed(size);
    HeaderFirst(a.base, a.cells);
    WalkFinds(h, a, s, 0);
    var k := FirstFit(a.cells, s);
    if k < |a.cells| {
      FlagWritten(h, a, k, 0);
      WrapSmall(Header(a.base, a.cells, k) + 4);
      WrapSmall(Payload(a.base, a.cells, k));
    } else {
      WrapSmall(h.brk + 8 + s);
      WrapSmall(h.brk + 8);
      WrapSmall(h.brk + 4);
      if Frontier(a) + 8 + s <= a.end {
        CellAppended(h, a, s);
      }
    }
  }

  lemma WrapSmall(x: nat)
    requires x < 0x1_0000_0000
    ensures Wrap(x) == x
  {
  }
}
