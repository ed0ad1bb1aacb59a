/** The lifter as it runs: loops that fill its tables and append lines, with the
    counts it keeps. Each method produces exactly what module Lift defines. */
module Lifter {
  import opened Words
  import opened Guest
  import opened Wrappers
  import opened Arm
  import opened CCode
  import opened Segments
  import L = Lift

  class Image {
    const segs: seq<Segment>

    constructor (segs: seq<Segment>)
      ensures this.segs == segs
    {
      this.segs := segs;
    }

    /** The first segment that holds the whole word decides. */
    method Word32(va: int) returns (w: Option<Word>)
      ensures w == ReadWord(segs, va)
    {
      for i := 0 to |segs|
        invariant ReadWord(segs, va) == ReadWord(segs[i..], va)
      {
        assert segs[i..][1..] == segs[i + 1..];
        var s := segs[i];
        if Covers(s, va) {
          var o := va - s.start;
          return Some(Compose(DataByte(s, o), DataByte(s, o + 1), DataByte(s, o + 2), DataByte(s, o + 3)));
        }
      }
      return None;
    }
  }

  lemma Reassociate(a: seq<Word>, x: Word, b: seq<Word>)
    ensures a + ([x] + b) == (a + [x]) + b
  {
  }

  lemma TableOne(segs: seq<Segment>, tbl: int, heads: set<Word>, k: nat)
    requires k < 256
    ensures var w := ReadWord(segs, tbl + 4 * k);
            L.TableFrom(segs, tbl, heads, k) ==
            if w.None? || w.value !in heads then [] else [w.value] + L.TableFrom(segs, tbl, heads, k + 1)
  {
    hide ReadWord;
  }

  lemma TableEnds(segs: seq<Segment>, tbl: int, heads: set<Word>)
    ensures L.TableFrom(segs, tbl, heads, 256) == []
  {
  }

  class Lifter {
    const image: Image
    var insns: nat
    var lifted: nat
    var stubbed: nat
    var callContinue: set<Word>
    var tables: map<Word, L.JumpTable>

    constructor (image: Image)
      ensures this.image == image && insns == lifted == stubbed == 0
      ensures callContinue == {} && tables == map[]
    {
      this.image := image;
      insns, lifted, stubbed := 0, 0, 0;
      callContinue, tables := {}, map[];
    }

    // ---- block transfer: statement lists built by loops ----

    /** The operand registers in ascending order. */
    method RegList(regs: set<RegNo>) returns (out: seq<RegNo>)
      ensures out == Ascending(regs)
    {
      out := [];
      for i: nat := 0 to 16
        invariant out == Below(regs, i)
      {
        if i in regs {
          out := out + [i];
        }
      }
    }

    method Push(regs: set<RegNo>) returns (s: seq<Stmt>)
      ensures s == L.PushBody(Ascending(regs))
    {
      var rs := RegList(regs);
      var n := |rs|;
      s := [SAssign(EReg(SP), EBin(CSub, EReg(SP), EConst(Wrap(4 * n))))];
      for i := 0 to n
        invariant s == [SAssign(EReg(SP), EBin(CSub, EReg(SP), EConst(Wrap(4 * n))))] + L.PushStores(rs, i)
      {
        s := s + [SStore(Word4, EBin(CAdd, EReg(SP), EConst(Wrap(4 * i))), EReg(rs[i]))];
      }
    }

    method Pop(regs: set<RegNo>) returns (s: seq<Stmt>)
      ensures s == L.PopBody(Ascending(regs))
    {
      var rs := RegList(regs);
      var n := |rs|;
      s := [];
      for i := 0 to n
        invariant s == L.PopLoads(rs, i)
      {
        if rs[i] != PC {
          s := s + [SAssign(EReg(rs[i]), ELoad(Word4, false, EBin(CAdd, EReg(SP), EConst(Wrap(4 * i)))))];
        }
      }
      s := s + [SAssign(EReg(SP), EBin(CAdd, EReg(SP), EConst(Wrap(4 * n))))];
      if PC in rs {
        s := s + [SReturn];
      }
    }

    method LdmStm(load: bool, mode: BlockMode, rn: RegNo, wb: bool, regs: set<RegNo>, pc: Word) returns (s: seq<Stmt>)
      ensures s == L.BlockBody(load, mode, rn, wb, Ascending(regs), pc)
    {
      hide L.BaseOffE, L.RegE, Ascending, L.Low, Wrap;
      var rs := RegList(regs);
      var n := |rs|;
      var b, low := L.RegE(rn, pc), L.Low(mode, n);
      s := [SBase(b)];
      for i := 0 to n
        invariant s == [SBase(b)] + L.BlockMoves(load, rs, low, i)
      {
        var a := L.BaseOffE(low + 4 * i);
        if load {
          if rs[i] != PC {
            s := s + [SAssign(EReg(rs[i]), ELoad(Word4, false, a))];
          }
        } else {
          s := s + [SStore(Word4, a, EReg(rs[i]))];
        }
      }
      if wb {
        s := s + [SAssign(b, EBin(if low >= 0 then CAdd else CSub, EBase, EConst(Wrap(4 * n))))];
      }
      if load && PC in rs {
        s := s + [SReturn];
      }
    }

    // ---- one instruction ----

    ghost function Cx(heads: set<Word>): L.Context
      reads this
    {
      L.Context(image.segs, heads, callContinue, tables)
    }

    method Load(op: Op, pc: Word) returns (s: seq<Stmt>)
      requires op.Load?
      ensures s == L.LoadBody(op, pc, image.segs)
    {
      var lit := L.LiteralAddr(op, pc);
      if lit.Some? {
        var v := image.Word32(lit.value);
        if v.Some? {
          return [SAssign(L.RegE(op.rd, pc), EConst(v.value))];
        }
      }
      var access := L.AccessE(op.rn, op.off, op.ix, pc);
      var update := L.Update(op.rn, op.off, op.ix, pc);
      if op.rd == PC {
        s := update + [SCall(ELoad(op.size, false, access)), SReturn];
      } else {
        s := [SAssign(L.RegE(op.rd, pc), ELoad(op.size, op.signed, access))] + update;
      }
    }

    method Body(op: Op, pc: Word) returns (body: Option<seq<Stmt>>)
      requires !(op.B? || op.Bl? || op.Bx? || op.BlxReg?)
      ensures body == L.Body(op, pc, image.segs)
    {
      if op.Push? {
        var s := Push(op.regs);
        body := Some(s);
      } else if op.Pop? {
        var s := Pop(op.regs);
        body := Some(s);
      } else if op.Block? {
        var s := LdmStm(op.load, op.mode, op.rn, op.wb, op.regs, pc);
        body := Some(s);
      } else if op.Load? {
        var s := Load(op, pc);
        body := Some(s);
      } else {
        body := L.Body(op, pc, image.segs);
      }
    }

    /** Emits one line and counts it as lifted or stubbed. */
    method Emit(item: L.Item, next: Word, heads: set<Word>) returns (line: Line)
      modifies this`insns, this`lifted, this`stubbed
      ensures line == L.Emit(item, next, Cx(heads))
      ensures insns == old(insns) + 1
      ensures lifted == old(lifted) + (if line.body == [SUnimplemented] then 0 else 1)
      ensures stubbed == old(stubbed) + (if line.body == [SUnimplemented] then 1 else 0)
    {
      insns := insns + 1;
      var pc, op, guard := item.addr, item.ins.op, L.GuardOf(item.ins.cond);
      if op.Bl? || op.BlxReg? {
        var target := if op.Bl? then EConst(op.target) else L.RegE(op.rm, pc);
        lifted := lifted + 1;
        return Line(None, guard, [SAssign(EReg(LR), EConst(next)), SCall(target)]);
      }
      if op.Bx? || op.B? {
        var stmts;
        if op.Bx? {
          if op.rm == LR {
            stmts := [SReturn];
          } else if pc in callContinue {
            stmts := [SCall(L.RegE(op.rm, pc))];
          } else {
            stmts := [SCall(L.RegE(op.rm, pc)), SReturn];
          }
        } else {
          stmts := if op.target in heads then [SGoto(op.target)] else [SCall(EConst(op.target)), SReturn];
        }
        lifted := lifted + 1;
        return Line(None, guard, stmts);
      }
      if pc in tables {
        lifted := lifted + 1;
        return Line(None, guard, [SSwitch(tables[pc].idx, tables[pc].targets)]);
      }
      var body := Body(op, pc);
      if body.None? {
        stubbed := stubbed + 1;
        return Line(None, None, [SUnimplemented]);
      }
      L.BodyNotStub(op, pc, image.segs);
      lifted := lifted + 1;
      return Line(None, guard, body.value);
    }

    // ---- the whole function ----

    /** One instruction at each decodable head inside the function's bytes. */
    method Decode(fn: L.Fn) returns (d: seq<L.Item>)
      ensures d == L.Decoded(fn)
    {
      var heads := L.HeadsOf(fn);
      d := [];
      for i := 0 to |heads|
        invariant d == L.DecodedFrom(fn, heads, i)
      {
        var h := heads[i];
        var off: int := h as int - fn.start as int;
        if 0 <= off < fn.size && h in fn.disasm {
          d := d + [L.Item(h, fn.disasm[h])];
        }
      }
    }

    /** Marks each bx or blx that follows `mov lr, pc` as a call. */
    method FindIdioms(d: seq<L.Item>)
      modifies this`callContinue
      ensures callContinue == L.CallContinue(d)
    {
      callContinue := {};
      var i := 0;
      while i < |d| - 1
        invariant 0 <= i && (d == [] || i <= |d| - 1)
        invariant callContinue == set k | 0 <= k <= i && k < |d| && L.IsIdiom(d, k) :: d[k].addr
      {
        if L.IsMovLrPc(d[i].ins) && L.IsBranchReg(d[i + 1].ins) {
          callContinue := callContinue + {d[i + 1].addr};
        }
        i := i + 1;
      }
    }

    /** The longest run of table words, at most 256, that are local instruction addresses. */
    method ReadTable(tbl: int, heads: set<Word>) returns (targets: seq<Word>)
      ensures targets == L.TableFrom(image.segs, tbl, heads, 0)
    {
      hide ReadWord, L.TableFrom;
      targets := [];
      var k := 0;
      TableEnds(image.segs, tbl, heads);
      while k < 256
        invariant 0 <= k <= 256 && |targets| == k
        invariant targets + L.TableFrom(image.segs, tbl, heads, k) == L.TableFrom(image.segs, tbl, heads, 0)
        decreases 256 - k
      {
        TableOne(image.segs, tbl, heads, k);
        var t := image.Word32(tbl + 4 * k);
        if t.None? || t.value !in heads {
          break;
        }
        Reassociate(targets, t.value, L.TableFrom(image.segs, tbl, heads, k + 1));
        targets := targets + [t.value];
        k := k + 1;
      }
      assert targets + [] == targets;
    }

    /** First pass: branch targets become labels, table loads become switches. */
    method FindLabels(d: seq<L.Item>, heads: set<Word>) returns (labels: set<Word>)
      requires heads == L.HeadSet(d)
      modifies this`tables
      ensures tables == L.TablesFrom(image.segs, heads, d, |d|)
      ensures labels == L.Labels(image.segs, d)
    {
      hide L.TableFrom, L.HeadSet, L.IsTableLoad;
      labels, tables := {}, map[];
      for i := 0 to |d|
        invariant tables == L.TablesFrom(image.segs, heads, d, i)
        invariant labels == L.LabelsTo(image.segs, d, i)
      {
        var ins, addr := d[i].ins, d[i].addr;
        if ins.op.B? {
          L.BranchNoTable(image.segs, heads, d[i]);
          if ins.op.target in heads {
            labels := labels + {ins.op.target};
          }
        } else if L.IsTableLoad(ins) {
          L.TableIndex(ins);
          var targets := ReadTable(addr as int + 8, heads);
          if targets != [] {
            tables := tables[addr := L.JumpTable(ins.op.off.rm, targets)];
            labels := labels + set t | t in targets;
          }
        }
      }
    }

    /** Second pass, one instruction: its line, labelled if something jumps to it. */
    method EmitLine(fn: L.Fn, d: seq<L.Item>, i: nat, heads: set<Word>, labels: set<Word>) returns (line: Line)
      requires d == L.Decoded(fn) && i < |d| && heads == L.HeadSet(d) && labels == L.Labels(image.segs, d)
      requires callContinue == L.CallContinue(d) && tables == L.TablesFrom(image.segs, heads, d, |d|)
      modifies this`insns, this`lifted, this`stubbed
      ensures line == L.LineAt(image.segs, fn, i)
      ensures insns == old(insns) + 1
      ensures lifted == old(lifted) + (if line.body == [SUnimplemented] then 0 else 1)
      ensures stubbed == old(stubbed) + (if line.body == [SUnimplemented] then 1 else 0)
    {
      hide L.Decoded, L.Emit, L.Labels, L.TablesFrom, L.CallContinue, L.HeadSet, L.ContextOf;
      L.ContextIs(image.segs, d);
      var next := if i + 1 < |d| then d[i + 1].addr else fn.end;
      line := Emit(d[i], next, heads);
      line := line.(mark := if d[i].addr in labels then Some(d[i].addr) else None);
    }

    /** `lift_func`: the emitted lines, with every instruction counted once. */
    method LiftFunc(fn: L.Fn) returns (lines: seq<Line>)
      modifies this
      ensures lines == L.LiftFunc(image.segs, fn)
      ensures insns == old(insns) + |lines|
      ensures lifted + stubbed == old(lifted) + old(stubbed) + |lines|
      ensures stubbed == old(stubbed) + L.Stubs(lines)
    {
      hide L.Decoded, L.LineAt, L.Labels, L.TablesFrom, L.CallContinue, L.HeadSet;
      var d := Decode(fn);
      var heads := L.HeadSet(d);
      FindIdioms(d);
      var labels := FindLabels(d, heads);
      lines := [];
      for i := 0 to |d|
        invariant callContinue == L.CallContinue(d) && tables == L.TablesFrom(image.segs, heads, d, |d|)
        invariant |lines| == i && forall k :: 0 <= k < i ==> lines[k] == L.LineAt(image.segs, fn, k)
        invariant insns == old(insns) + i && lifted + stubbed == old(lifted) + old(stubbed) + i
        invariant stubbed == old(stubbed) + L.Stubs(lines)
      {
        var line := EmitLine(fn, d, i, heads, labels);
        assert (lines + [line])[..i] == lines;
        lines := lines + [line];
      }
    }
  }
}
