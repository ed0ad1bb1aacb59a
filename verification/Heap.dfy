/** The allocator as it runs: three globals, and headers in guest memory. */
module Heap {
  import opened Words
  import opened Guest
  import M = HeapModel
  import H = HeapHistory

  class GuestHeap {
    const cpu: NgageCpu
    var base: Word
    var end: Word
    var brk: Word
    ghost var cells: M.Abstract

    ghost function View(): M.Heap
      requires cpu.Valid()
      reads this, cpu, cpu.r, cpu.mem
    {
      M.Heap(base, end, brk, cpu.mem[..])
    }

    /** The globals and the headers in guest memory represent the cells. */
    ghost predicate Valid()
      reads this, cpu, cpu.r, cpu.mem
    {
      cpu.Valid() && M.Represents(View(), cells)
    }

    constructor (cpu: NgageCpu, base: Word, size: Word)
      requires cpu.Valid() && base + 7 <= 0xFFFF_FFFF && base + size <= 0xFFFF_FFFF && base + size <= cpu.mem.Length
      ensures this.cpu == cpu && Valid() && cells.cells == []
      ensures View() == M.Init(cpu.mem[..], base, size)
    {
      this.cpu := cpu;
      this.base := M.Round8(base);
      this.end := Wrap(base + size);
      this.brk := M.Round8(base);
      this.cells := M.Abstract(M.Round8(base), base + size, []);
      new;
      M.WrapSmall(base + 7);
      M.WrapSmall(base + size);
    }

    /** First fit over the headers, else the frontier, else 0. */
    method Alloc(request: Word) returns (ptr: Word)
      requires Valid()
      modifies this`brk, this`cells, cpu.mem
      ensures cpu.Valid() && cpu.r[..] == old(cpu.r[..]) && cpu.cpsr == old(cpu.cpsr)
      ensures View() == M.Alloc(old(View()), request).heap && ptr == M.Alloc(old(View()), request).ptr
      ensures cells == if M.NoWrap(old(cells), request) then M.AbsAlloc(old(cells), request).heap else old(cells)
      ensures M.NoWrap(old(cells), request) ==> Valid() && ptr == M.AbsAlloc(old(cells), request).ptr
    {
      hide W32, R32, M.Represents, M.Header, M.AbsAlloc, M.NoWrap, M.BlockSize, M.Walk;
      var size := M.BlockSize(request);
      ghost var h, a := View(), cells;
      if M.NoWrap(a, request) {
        M.AllocRefines(h, a, request);
        cells := M.AbsAlloc(a, request).heap;
      }
      var p: Word := base;
      ghost var a1, k := cells, 0;
      M.HeaderFirst(a.base, a.cells);
      M.SameBase(h, a);
      while p < brk
        invariant cpu.Valid() && View() == h && cells == a1
        invariant k <= |a.cells| && p == M.Header(a.base, a.cells, k)
        invariant M.Walk(h.mem, h.base, h.brk, size) == M.Walk(h.mem, p, h.brk, size)
        decreases brk - p
      {
        M.HeaderHere(h, a, k);
        M.WalkStep(h.mem, p, h.brk, size);
        var bsize := cpu.Read32(p);
        var bfree := cpu.Read32(Wrap(p + 4));
        if bfree != 0 && bsize >= size {
          cpu.Write32(Wrap(p + 4), 0);
          return Wrap(p + 8);
        }
        M.WrapSmall(p + 8 + bsize);
        p := Wrap(p + 8 + bsize);
        k := k + 1;
      }
      M.WalkDone(h.mem, p, h.brk, size);
      var blk: int := brk;
      if Wrap(blk + 8 + size) > end {
        return 0;
      }
      cpu.Write32(brk, size);
      cpu.Write32(Wrap(blk + 4), 0);
      brk := Wrap(blk + 8 + size);
      return Wrap(blk + 8);
    }

    method AllocZeroed(request: Word) returns (ptr: Word)
      requires Valid()
      modifies this`brk, this`cells, cpu.mem
      ensures cpu.Valid() && cpu.r[..] == old(cpu.r[..]) && cpu.cpsr == old(cpu.cpsr)
      ensures View() == M.AllocZeroed(old(View()), request).heap && ptr == M.AllocZeroed(old(View()), request).ptr
      ensures cells == if M.NoWrap(old(cells), request) then M.AbsAlloc(old(cells), request).heap else old(cells)
      ensures M.NoWrap(old(cells), request) ==> Valid() && ptr == M.AbsAlloc(old(cells), request).ptr
    {
      hide W32, R32, M.Represents, M.AbsAlloc, M.NoWrap, M.Alloc, M.Round8;
      ghost var h, a := View(), cells;
      if M.NoWrap(a, request) {
        H.AllocZeroedRefines(h, a, request);
      }
      ptr := Alloc(request);
      if ptr != 0 {
        var n := M.Round8(request);
        var i: int := 0;
        ghost var g := View();
        while i < n
          invariant 0 <= i && cpu.Valid() && cpu.r[..] == old(cpu.r[..]) && cpu.cpsr == old(cpu.cpsr)
          invariant cells == if M.NoWrap(a, request) then M.AbsAlloc(a, request).heap else a
          invariant View() == g.(mem := cpu.mem[..])
          invariant M.ZeroWords(g.mem, ptr, 0, n) == M.ZeroWords(cpu.mem[..], ptr, i, n)
          decreases n - i
        {
          cpu.Write32(Wrap(ptr as int + i), 0);
          i := i + 4;
        }
      }
    }

    /** Marks the block free; null is ignored. A pointer that is no block writes a word
        all the same. */
    method Free(ptr: Word)
      requires cpu.Valid()
      modifies this`cells, cpu.mem
      ensures cpu.Valid() && cpu.r[..] == old(cpu.r[..]) && cpu.cpsr == old(cpu.cpsr)
      ensures View() == M.Free(old(View()), ptr)
      ensures old(Valid()) && (ptr == 0 || H.IsBlock(old(cells), ptr)) ==>
                Valid() && cells == M.AbsFree(old(cells), ptr)
    {
      hide W32, R32, M.Represents, M.AbsFree, H.IsBlock;
      if Valid() && (ptr == 0 || H.IsBlock(cells, ptr)) {
        H.FreeRefines(View(), cells, ptr);
        cells := M.AbsFree(cells, ptr);
      }
      if ptr == 0 {
        return;
      }
      cpu.Write32(Wrap(ptr - 4), 1);
    }
  }
}
