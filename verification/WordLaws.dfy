/** What the operations shared by the flat machine and the emitted C compute: loads
    and stores of each size, and products. */
module WordLaws {
  import opened Words
  import opened Shifts
  import opened Guest
  import opened Arm
  import opened Bits

  // ---- loads ----

  lemma Extended(x: Word, half: int)
    requires (half == 0x80 || half == 0x8000) && x < 2 * half
    ensures var v := if x >= half then Wrap(x as int - 2 * half) else x;
            -half <= Signed(v) < half && v % (2 * half) == x
  {
    if x >= half {
      assert Wrap(x as int - 2 * half) == x as int - 2 * half + 0x1_0000_0000;
      if half == 0x80 {
        DivUnique(x - 0x100 + 0x1_0000_0000, 0x100, 0xFF_FFFF, x);
      } else {
        DivUnique(x - 0x1_0000 + 0x1_0000_0000, 0x1_0000, 0xFFFF, x);
      }
    }
  }

  /** A signed byte or half is the number with those low bits between its two bounds;
      an unsigned one is the bits themselves. */
  lemma LoadsExtend(m: Mem, a: Word)
    ensures var v := LoadVal(m, Byte1, true, a); -0x80 <= Signed(v) < 0x80 && v % 0x100 == R8(m, a)
    ensures var v := LoadVal(m, Half2, true, a); -0x8000 <= Signed(v) < 0x8000 && v % 0x1_0000 == R16(m, a)
    ensures var v := LoadVal(m, Byte1, false, a); v < 0x100 && v % 0x100 == R8(m, a)
    ensures var v := LoadVal(m, Half2, false, a); v < 0x1_0000 && v % 0x1_0000 == R16(m, a)
    ensures forall signed :: LoadVal(m, Word4, signed, a) == R32(m, a)
  {
    hide R8, R16, R32, Wrap, Signed;
    Extended(R8(m, a), 0x80);
    Extended(R16(m, a), 0x8000);
  }

  /** Bytes make halves and halves make words, least significant first; outside the
      window everything reads as 0. */
  lemma LittleEndian(m: Mem, a: Word)
    ensures R8(m, a) == if a < |m| then m[a] else 0
    ensures a + 2 <= |m| && a as int + 1 < 0x1_0000_0000 ==> R16(m, a) == R8(m, a) + 0x100 * (R8(m, a + 1) as int)
    ensures a + 4 <= |m| && a as int + 3 < 0x1_0000_0000 ==>
              R32(m, a) == R16(m, a) + 0x1_0000 * (R16(m, a + 2) as int)
    ensures a + 2 > |m| ==> R16(m, a) == 0
    ensures a + 4 > |m| ==> R32(m, a) == 0
  {
  }

  // ---- stores ----

  function Range(size: Size): nat {
    match size
    case Byte1 => 0x100
    case Half2 => 0x1_0000
    case Word4 => 0x1_0000_0000
  }

  /** A store inside the window is read back, reduced to its size, and changes no byte
      outside it; one that is not wholly inside changes nothing. */
  lemma StoredIsLoaded(m: Mem, size: Size, a: Word, v: Word)
    ensures a + Bytes(size) <= |m| ==> LoadVal(StoreVal(m, size, a, v), size, false, a) == v % Range(size)
    ensures |StoreVal(m, size, a, v)| == |m|
    ensures forall x :: 0 <= x < |m| && !(a <= x < a as int + Bytes(size)) ==> StoreVal(m, size, a, v)[x] == m[x]
    ensures a + Bytes(size) > |m| ==> StoreVal(m, size, a, v) == m
  {
    hide Compose, ByteOf;
    LanesCompose(v);
  }

  lemma LanesCompose(v: Word)
    ensures ByteOf(v, 0) == v % 0x100
    ensures Compose(ByteOf(v, 0), ByteOf(v, 1), 0, 0) == v % 0x1_0000
    ensures Compose(ByteOf(v, 0), ByteOf(v, 1), ByteOf(v, 2), ByteOf(v, 3)) == v
  {
    assert v == v % 0x1_0000 + 0x1_0000 * (v / 0x1_0000);
  }

  // ---- products ----

  /** The low 32 bits of the product with its addend. */
  lemma MulResIs(x: Word, y: Word, acc: Word)
    ensures ((x as int) * (y as int) + acc - MulRes(x, y, acc)) % 0x1_0000_0000 == 0
  {
    LowWord((x as int) * (y as int) + acc);
  }

  lemma LowWord(v: int)
    ensures (v - Wrap(v)) % 0x1_0000_0000 == 0
  {
    DivUnique(v - Wrap(v), 0x1_0000_0000, v / 0x1_0000_0000, 0);
  }

  /** The low 64 bits of the unsigned or signed product. */
  lemma Product64Is(x: Word, y: Word)
    ensures ((x as int) * (y as int) - Product64(false, x, y)) % 0x1_0000_0000_0000_0000 == 0
    ensures (Signed(x) * Signed(y) - Product64(true, x, y)) % 0x1_0000_0000_0000_0000 == 0
  {
    LowDouble((x as int) * (y as int));
    LowDouble(Signed(x) * Signed(y));
  }

  lemma LowDouble(v: int)
    ensures (v - v % 0x1_0000_0000_0000_0000) % 0x1_0000_0000_0000_0000 == 0
  {
    DivUnique(v - v % 0x1_0000_0000_0000_0000, 0x1_0000_0000_0000_0000, v / 0x1_0000_0000_0000_0000, 0);
  }

  // ---- register lists ----

  /** A register list in ascending order: each listed register once, and no other. */
  lemma AscendingIs(regs: set<RegNo>)
    ensures forall i: RegNo :: i in Ascending(regs) <==> i in regs
    ensures forall j, k :: 0 <= j < k < |Ascending(regs)| ==> Ascending(regs)[j] < Ascending(regs)[k]
  {
    BelowIs(regs, 16);
  }

  lemma {:induction false} BelowIs(regs: set<RegNo>, n: nat)
    requires n <= 16
    ensures forall i: RegNo :: i in Below(regs, n) <==> i in regs && i < n
    ensures forall j, k :: 0 <= j < k < |Below(regs, n)| ==> Below(regs, n)[j] < Below(regs, n)[k]
  {
    if n > 0 {
      BelowIs(regs, n - 1);
    }
  }

  // ---- block transfers ----

  /** Where a pointer into the block stands after k steps of one word. */
  function Pointer(up: bool, base: Word, k: nat): Word {
    if k == 0 then base else Wrap(Pointer(up, base, k - 1) + if up then 4 else -4)
  }

  lemma WrapOnce(x: int, y: int)
    ensures Wrap(Wrap(x) + y) == Wrap(x + y)
  {
  }

  lemma WrapSame(w: Word)
    ensures Wrap(w) == w
  {
  }

  lemma {:induction false} PointerIs(up: bool, base: Word, k: nat)
    ensures Pointer(up, base, k) == if up then Wrap(base + 4 * k) else Wrap(base - 4 * k)
  {
    hide Wrap;
    if k == 0 {
      WrapSame(base);
    } else {
      PointerIs(up, base, k - 1);
      WrapOnce(base + 4 * (k - 1), 4);
      WrapOnce(base - 4 * (k - 1), -4);
    }
  }

  /** The words of a block lie where the pointer stands as it steps up from the base for the
      registers in ascending order, or down for those in descending order: before or after
      each step, as the mode says. Writeback leaves the base where the steps end. */
  lemma BlockModesAre(mode: BlockMode, base: Word, n: nat, k: nat)
    requires k < n
    ensures var start, up := BlockStart(mode, base, n), mode == IA || mode == IB;
            && Wrap(start + 4 * (if up then k else n - 1 - k))
               == Pointer(up, base, if mode == IA || mode == DA then k else k + 1)
            && BlockBase(mode, base, n) == Pointer(up, base, n)
  {
    hide Wrap, Pointer;
    var up := mode == IA || mode == IB;
    PointerIs(up, base, k);
    PointerIs(up, base, k + 1);
    PointerIs(up, base, n);
    WrapSame(base);
    var j := if up then k else n - 1 - k;
    WrapOnce(base, 4 * j);
    WrapOnce(base + 4, 4 * j);
    WrapOnce(base - 4 * n + 4, 4 * j);
    WrapOnce(base - 4 * n, 4 * j);
  }

  // ---- operands ----

  /** Bit k of an immediate operand is bit k of its 8 bits rotated right by twice rot; its
      carry-out is the top bit, or the old carry if it is not rotated. */
  lemma ImmediateIs(imm8: Byte, rot: Nibble, pc: Word, r: Regs, carry: bool, k: nat)
    requires k < 32
    ensures var y := ShifterOperand(Imm(imm8, rot), pc, r, carry);
            && (Bit(y.value, k) <==> Bit(imm8, (k + 2 * rot) % 32))
            && y.carry == if rot == 0 then carry else Bit(imm8, 2 * rot - 1)
  {
    hide Bit, Shifted, CarryOut;
    ShiftedBits(Ror, imm8, 2 * rot, k);
    CarryOutIs(Ror, imm8, 2 * rot, carry);
  }

  /** An operand rotated through the carry: down by one bit, the carry in at the top and the
      bit that falls out as the carry-out. */
  lemma RotateThroughCarry(rm: RegNo, pc: Word, r: Regs, carry: bool, k: nat)
    requires k < 32
    ensures var x, y := RegVal(pc, r, rm), ShifterOperand(Rrx(rm), pc, r, carry);
            && (Bit(y.value, k) <==> if k < 31 then Bit(x, k + 1) else carry)
            && (y.carry <==> Bit(x, 0))
  {
    hide Bit;
    RightBits(RegVal(pc, r, rm), carry, k);
    BitZero(RegVal(pc, r, rm));
  }

  /** Each bit of a logical result. */
  predicate LogicalBit(op: DpOp, x: bool, y: bool)
    requires IsLogical(op)
  {
    match op
    case MOV => y
    case MVN => !y
    case ORR => x || y
    case EOR => x != y
    case TEQ => x != y
    case BIC => x && !y
    case _ => x && y
  }

  /** Data processing: the logical operations work on each bit alone and take the shifter's
      carry; a comparison has the flags of its subtraction or addition. */
  lemma ResultsAre(op: DpOp, f: Psr, x: Word, y: Shifter, k: nat)
    requires k < 32
    ensures IsLogical(op) ==>
              var r := DpResult(op, f, x, y);
              && (Bit(r.res, k) <==> LogicalBit(op, Bit(x, k), Bit(y.value, k)))
              && r.flags == f.(n := r.res >= 0x8000_0000, z := r.res == 0, c := y.carry)
    ensures DpResult(CMP, f, x, y) == DpResult(SUB, f, x, y) && DpResult(CMN, f, x, y) == DpResult(ADD, f, x, y)
    ensures IsLogical(op) <==> op in {MOV, MVN, AND, ORR, EOR, BIC, TST, TEQ}
  {
    hide Bit, Bitwise, Not, AddWithCarry, Subtract;
    BitwiseBits(x, y.value, k);
    BitwiseBits(x, Not(y.value), k);
    NotBits(y.value, k);
  }

  // ---- flags ----

  /** After an addition the conditions tell the sign and the zeroness of the result, the
      unsigned carry and the signed overflow. */
  lemma ConditionsMean(cpsr: Psr, a: Word, b: Word, cin: Word)
    requires cin <= 1
    ensures var f, r := AddFlags(cpsr, a, b, cin), Wrap(a + b + cin);
            var sum := Signed(a) + Signed(b) + cin;
            && (CcTest(EQ, f) <==> r == 0) && (CcTest(NE, f) <==> r != 0)
            && (CcTest(MI, f) <==> Signed(r) < 0) && (CcTest(PL, f) <==> Signed(r) >= 0)
            && (CcTest(VS, f) <==> sum != Signed(r)) && (CcTest(VC, f) <==> sum == Signed(r))
            && (CcTest(HS, f) <==> a + b + cin != r) && (CcTest(LO, f) <==> a + b + cin == r)
            && CcTest(AL, f)
  {
    hide AddFlags;
    AddFlagsMeaning(cpsr, a, b, cin);
    SignedSum(a, b, cin);
  }

  lemma SignedSum(a: Word, b: Word, cin: Word)
    requires cin <= 1
    ensures var r, sum := Wrap(a + b + cin), Signed(a) + Signed(b) + cin;
            && (sum == Signed(r) <==> -0x8000_0000 <= sum < 0x8000_0000)
            && (a + b + cin == r <==> a + b + cin < 0x1_0000_0000)
            && (Signed(r) < 0 <==> r >= 0x8000_0000)
  {
  }

  /** Two-word addition: with the carry the low words leave, the high words complete the
      64-bit sum. */
  lemma WideAddition(f: Psr, x0: Word, x1: Word, y0: Word, y1: Word)
    ensures var lo := Arithmetic(ADD, f, x0, y0);
            var hi := Arithmetic(ADC, lo.flags, x1, y1);
            Wide(x0, x1) + Wide(y0, y1) == Wide(lo.res, hi.res) + if hi.flags.c then 0x1_0000_0000_0000_0000 else 0
  {
    hide AddWithCarry;
    var lo := AddWithCarry(f, x0, y0, 0);
    WordSum(f, x0, y0, 0);
    WordSum(lo.flags, x1, y1, if lo.flags.c then 1 else 0);
  }

  /** Two-word subtraction, from either side. */
  lemma WideDifference(f: Psr, x0: Word, x1: Word, y0: Word, y1: Word)
    ensures var lo := Arithmetic(SUB, f, x0, y0);
            var hi := Arithmetic(SBC, lo.flags, x1, y1);
            && Wide(x0, x1) - Wide(y0, y1) == Wide(lo.res, hi.res) - (if hi.flags.c then 0 else 0x1_0000_0000_0000_0000)
            && Arithmetic(RSB, f, y0, x0) == lo && Arithmetic(RSC, lo.flags, y1, x1) == hi
  {
    hide Subtract;
    var lo := Subtract(f, x0, y0, 0);
    WordDifference(f, x0, y0, 0);
    WordDifference(lo.flags, x1, y1, if lo.flags.c then 0 else 1);
  }

  lemma WordSum(f: Psr, x: Word, y: Word, cin: nat)
    requires cin <= 1
    ensures var sum := AddWithCarry(f, x, y, cin);
            x + y + cin == sum.res + if sum.flags.c then 0x1_0000_0000 else 0
  {
  }

  lemma WordDifference(f: Psr, x: Word, y: Word, borrow: nat)
    requires borrow <= 1
    ensures var sum := Subtract(f, x, y, borrow);
            x - y - borrow == sum.res - if sum.flags.c then 0 else 0x1_0000_0000
  {
  }

  function Wide(lo: Word, hi: Word): int {
    lo + 0x1_0000_0000 * (hi as int)
  }
}
