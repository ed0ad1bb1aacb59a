/** The CPU context and the helpers generated code calls: guest memory
    accessors and NZCV arithmetic. */
module Guest {
  import opened Words

  /** The guest window, at most the whole 32-bit space. */
  type Mem = m: seq<Byte> | |m| <= 0x1_0000_0000
  type Regs = r: seq<Word> | |r| == 16 witness seq(16, i => 0)

  const SP := 13
  const LR := 14
  const PC := 15

  /** The program status register: NZCV in bits 31 to 28, and the other bits,
      which the generated code never touches. */
  datatype Psr = Psr(n: bool, z: bool, c: bool, v: bool, mode: nat)

  datatype Cpu = Cpu(r: Regs, cpsr: Psr, mem: Mem)

  // ---- memory: the window is [0, |mem|); an access outside it reads 0 or is dropped ----

  predicate InWindow(m: Mem, a: Word, size: nat) {
    a + size <= |m|
  }

  function R8(m: Mem, a: Word): Byte {
    if InWindow(m, a, 1) then m[a] else 0
  }

  function R16(m: Mem, a: Word): (v: Word)
    ensures v < 0x1_0000
  {
    if InWindow(m, a, 2) then Compose(m[a], m[a + 1], 0, 0) else 0
  }

  function R32(m: Mem, a: Word): Word {
    if InWindow(m, a, 4) then Compose(m[a], m[a + 1], m[a + 2], m[a + 3]) else 0
  }

  function Compose(b0: Byte, b1: Byte, b2: Byte, b3: Byte): Word {
    b0 + 0x100 * (b1 + 0x100 * (b2 + 0x100 * b3))
  }

  function ByteOf(v: Word, lane: nat): Byte
    requires lane < 4
  {
    match lane
    case 0 => v % 0x100
    case 1 => v / 0x100 % 0x100
    case 2 => v / 0x100 / 0x100 % 0x100
    case _ => v / 0x100 / 0x100 / 0x100
  }

  function W8(m: Mem, a: Word, v: Word): (m': Mem)
    ensures |m'| == |m|
  {
    if InWindow(m, a, 1) then m[a := ByteOf(v, 0)] else m
  }

  function W16(m: Mem, a: Word, v: Word): (m': Mem)
    ensures |m'| == |m|
  {
    if InWindow(m, a, 2) then m[a := ByteOf(v, 0)][a + 1 := ByteOf(v, 1)] else m
  }

  function W32(m: Mem, a: Word, v: Word): (m': Mem)
    ensures |m'| == |m|
  {
    if InWindow(m, a, 4)
    then m[a := ByteOf(v, 0)][a + 1 := ByteOf(v, 1)][a + 2 := ByteOf(v, 2)][a + 3 := ByteOf(v, 3)]
    else m
  }

  lemma ComposeSplits(v: Word)
    ensures Compose(ByteOf(v, 0), ByteOf(v, 1), ByteOf(v, 2), ByteOf(v, 3)) == v
  {
  }

  /** A stored word is read back. */
  lemma ReadBack(m: Mem, a: Word, v: Word)
    requires InWindow(m, a, 4)
    ensures R32(W32(m, a, v), a) == v
  {
    ComposeSplits(v);
  }

  /** A store leaves words that do not overlap it unchanged. */
  lemma ReadElsewhere(m: Mem, a: Word, v: Word, b: Word)
    requires b + 4 <= a || a + 4 <= b
    ensures R32(W32(m, a, v), b) == R32(m, b)
  {
  }

  lemma WriteElsewhere(m: Mem, a: Word, v: Word, x: nat)
    requires x < |m| && (x < a || a + 4 <= x)
    ensures W32(m, a, v)[x] == m[x]
  {
  }

  // ---- flags ----

  datatype Flag = N | Z | C | V

  predicate GetFlag(cpsr: Psr, f: Flag) {
    match f
    case N => cpsr.n
    case Z => cpsr.z
    case C => cpsr.c
    case V => cpsr.v
  }

  function SetFlag(cpsr: Psr, f: Flag, v: bool): Psr {
    match f
    case N => cpsr.(n := v)
    case Z => cpsr.(z := v)
    case C => cpsr.(c := v)
    case V => cpsr.(v := v)
  }

  function SetNZ(cpsr: Psr, r: Word): Psr {
    SetFlag(SetFlag(cpsr, N, r / 0x8000_0000 != 0), Z, r == 0)
  }

  function AddFlags(cpsr: Psr, a: Word, b: Word, cin: Word): Psr {
    var u := a + b + cin;
    var r := Wrap(u);
    var v := Bitwise(BitAnd, Not(Bitwise(BitXor, a, b)), Bitwise(BitXor, a, r)) / 0x8000_0000;
    SetFlag(SetFlag(SetNZ(cpsr, r), C, Wrap(u / 0x1_0000_0000) != 0), V, v != 0)
  }

  function SubFlags(cpsr: Psr, a: Word, b: Word): Psr {
    var r := Wrap(a - b);
    var v := Bitwise(BitAnd, Bitwise(BitXor, a, b), Bitwise(BitXor, a, r)) / 0x8000_0000;
    SetFlag(SetFlag(SetNZ(cpsr, r), C, a >= b), V, v != 0)
  }

  /** N and Z are the sign and zero bits; the rest of cpsr is unchanged. */
  lemma SetNZMeaning(cpsr: Psr, r: Word)
    ensures SetNZ(cpsr, r) == cpsr.(n := r >= 0x8000_0000, z := r == 0)
  {
  }

  /** C and V are the unsigned carry and the signed overflow of the unbounded sum. */
  lemma AddFlagsMeaning(cpsr: Psr, a: Word, b: Word, cin: Word)
    requires cin <= 1
    ensures var r := Wrap(a + b + cin);
            AddFlags(cpsr, a, b, cin) ==
            cpsr.(n := r >= 0x8000_0000, z := r == 0,
                  c := a + b + cin >= 0x1_0000_0000,
                  v := !(-0x8000_0000 <= Signed(a) + Signed(b) + cin < 0x8000_0000))
  {
    hide Bitwise;
    var r := Wrap(a + b + cin);
    var x := Bitwise(BitXor, a, b);
    BitwiseTop(BitXor, a, b);
    BitwiseTop(BitXor, a, r);
    BitwiseTop(BitAnd, Not(x), Bitwise(BitXor, a, r));
    SumOverflows(a, b, cin);
  }

  /** Two summands of one sign overflow exactly when the sum has the other. */
  lemma SumOverflows(a: Word, b: Word, cin: Word)
    requires cin <= 1
    ensures var top := 0x8000_0000;
            var r := Wrap(a + b + cin);
            ((a >= top) == (b >= top) && (a >= top) != (r >= top))
            <==> !(-top <= Signed(a) + Signed(b) + cin < top)
  {
  }

  lemma SubFlagsMeaning(cpsr: Psr, a: Word, b: Word)
    ensures var r := Wrap(a - b);
            SubFlags(cpsr, a, b) ==
            cpsr.(n := r >= 0x8000_0000, z := r == 0, c := a >= b,
                  v := !(-0x8000_0000 <= Signed(a) - Signed(b) < 0x8000_0000))
  {
    var r := Wrap(a - b);
    BitwiseTop(BitXor, a, b);
    BitwiseTop(BitXor, a, r);
    BitwiseTop(BitAnd, Bitwise(BitXor, a, b), Bitwise(BitXor, a, r));
  }

  lemma ComplementSum(a: Word, b: Word)
    ensures a + Not(b) + 1 == a - b + 0x1_0000_0000
    ensures Wrap(a - b) == Wrap(a + Not(b) + 1)
    ensures Signed(Not(b)) == -Signed(b) - 1
  {
  }

  /** Subtracting is adding the complement with carry-in 1: same result, same cpsr. */
  lemma SubIsAddComplement(cpsr: Psr, a: Word, b: Word)
    ensures Wrap(a - b) == Wrap(a + Not(b) + 1)
    ensures SubFlags(cpsr, a, b) == AddFlags(cpsr, a, Not(b), 1)
  {
    ComplementSum(a, b);
    var f, g := SubFlags(cpsr, a, b), AddFlags(cpsr, a, Not(b), 1);
    assert f.n == g.n && f.z == g.z && f.mode == g.mode;
    assert f.c == g.c by { SubFlagsMeaning(cpsr, a, b); AddFlagsMeaning(cpsr, a, Not(b), 1); }
    assert f.v == g.v by { SubFlagsMeaning(cpsr, a, b); AddFlagsMeaning(cpsr, a, Not(b), 1); }
  }

  // ---- conditions ----

  datatype Cond = EQ | NE | HS | LO | MI | PL | VS | VC | HI | LS | GE | LT | GT | LE | AL

  /** The C expression the lifter emits for a condition code. */
  predicate CcTest(cc: Cond, cpsr: Psr) {
    match cc
    case EQ => GetFlag(cpsr, Z)
    case NE => !GetFlag(cpsr, Z)
    case HS => GetFlag(cpsr, C)
    case LO => !GetFlag(cpsr, C)
    case MI => GetFlag(cpsr, N)
    case PL => !GetFlag(cpsr, N)
    case VS => GetFlag(cpsr, V)
    case VC => !GetFlag(cpsr, V)
    case HI => GetFlag(cpsr, C) && !GetFlag(cpsr, Z)
    case LS => !GetFlag(cpsr, C) || GetFlag(cpsr, Z)
    case GE => GetFlag(cpsr, N) == GetFlag(cpsr, V)
    case LT => GetFlag(cpsr, N) != GetFlag(cpsr, V)
    case GT => !GetFlag(cpsr, Z) && GetFlag(cpsr, N) == GetFlag(cpsr, V)
    case LE => GetFlag(cpsr, Z) || GetFlag(cpsr, N) != GetFlag(cpsr, V)
    case AL => true
  }

  /** Under f every condition code decides an integer relation of a and b. */
  predicate Decides(f: Psr, a: Word, b: Word) {
    && (CcTest(EQ, f) <==> a == b) && (CcTest(NE, f) <==> a != b)
    && (CcTest(HS, f) <==> a >= b) && (CcTest(LO, f) <==> a < b)
    && (CcTest(HI, f) <==> a > b) && (CcTest(LS, f) <==> a <= b)
    && (CcTest(GE, f) <==> Signed(a) >= Signed(b)) && (CcTest(LT, f) <==> Signed(a) < Signed(b))
    && (CcTest(GT, f) <==> Signed(a) > Signed(b)) && (CcTest(LE, f) <==> Signed(a) <= Signed(b))
  }

  lemma FlagsDecide(f: Psr, a: Word, b: Word)
    requires f.n == (Wrap(a - b) >= 0x8000_0000) && f.z == (Wrap(a - b) == 0) && f.c == (a >= b)
    requires f.v == !(-0x8000_0000 <= Signed(a) - Signed(b) < 0x8000_0000)
    ensures Decides(f, a, b)
  {
    assert f.z <==> a == b;
    assert f.n == f.v <==> Signed(a) >= Signed(b);
    assert Signed(a) == Signed(b) <==> a == b;
  }

  /** After a comparison every condition code decides an exact integer relation. */
  lemma CompareDecides(cpsr: Psr, a: Word, b: Word)
    ensures Decides(SubFlags(cpsr, a, b), a, b)
  {
    SubFlagsMeaning(cpsr, a, b);
    FlagsDecide(SubFlags(cpsr, a, b), a, b);
  }

  // ---- the context object ----

  class NgageCpu {
    const r: array<Word>
    var cpsr: Psr
    const mem: array<Byte>

    ghost predicate Valid()
      reads this, r, mem
    {
      r.Length == 16 && mem.Length <= 0x1_0000_0000 && r as object != mem as object
    }

    ghost function View(): Cpu
      requires Valid()
      reads this, r, mem
    {
      Cpu(r[..], cpsr, mem[..])
    }

    constructor (size: nat)
      requires size <= 0x1_0000_0000
      ensures Valid() && fresh(r) && fresh(mem) && mem.Length == size
      ensures View() == Cpu(seq(16, i => 0), Psr(false, false, false, false, 0), seq(size, i => 0))
    {
      r := new Word[16](i => 0);
      mem := new Byte[size](i => 0);
      cpsr := Psr(false, false, false, false, 0);
      new;
      assert r[..] == seq(16, i => 0);
      assert mem[..] == seq(size, i => 0);
    }

    method SetF(f: Flag, v: Word)
      requires Valid()
      modifies this`cpsr
      ensures Valid() && View() == old(View()).(cpsr := SetFlag(old(cpsr), f, v != 0))
    {
      match f
      case N => cpsr := cpsr.(n := v != 0);
      case Z => cpsr := cpsr.(z := v != 0);
      case C => cpsr := cpsr.(c := v != 0);
      case V => cpsr := cpsr.(v := v != 0);
    }

    method SetNZFlags(res: Word)
      requires Valid()
      modifies this`cpsr
      ensures Valid() && View() == old(View()).(cpsr := SetNZ(old(cpsr), res))
    {
      SetF(N, res / 0x8000_0000);
      SetF(Z, if res == 0 then 1 else 0);
    }

    method Add(a: Word, b: Word, cin: Word) returns (res: Word)
      requires Valid()
      modifies this`cpsr
      ensures Valid() && res == Wrap(a + b + cin)
      ensures View() == old(View()).(cpsr := AddFlags(old(cpsr), a, b, cin))
    {
      hide Bitwise;
      var u := a + b + cin;
      res := Wrap(u);
      SetNZFlags(res);
      SetF(C, Wrap(u / 0x1_0000_0000));
      SetF(V, Bitwise(BitAnd, Not(Bitwise(BitXor, a, b)), Bitwise(BitXor, a, res)) / 0x8000_0000);
    }

    method Sub(a: Word, b: Word) returns (res: Word)
      requires Valid()
      modifies this`cpsr
      ensures Valid() && res == Wrap(a - b)
      ensures View() == old(View()).(cpsr := SubFlags(old(cpsr), a, b))
    {
      res := Wrap(a - b);
      SetNZFlags(res);
      SetF(C, if a >= b then 1 else 0);
      SetF(V, Bitwise(BitAnd, Bitwise(BitXor, a, b), Bitwise(BitXor, a, res)) / 0x8000_0000);
    }

    method Read32(a: Word) returns (v: Word)
      requires Valid()
      ensures v == R32(mem[..], a)
    {
      if a + 4 <= mem.Length {
        v := Compose(mem[a], mem[a + 1], mem[a + 2], mem[a + 3]);
      } else {
        v := 0;
      }
    }

    method Write8(a: Word, v: Word)
      requires Valid()
      modifies mem
      ensures Valid() && View() == old(View()).(mem := W8(old(mem[..]), a, v))
    {
      if a + 1 <= mem.Length {
        mem[a] := ByteOf(v, 0);
      }
    }

    method Write16(a: Word, v: Word)
      requires Valid()
      modifies mem
      ensures Valid() && View() == old(View()).(mem := W16(old(mem[..]), a, v))
    {
      if a + 2 <= mem.Length {
        mem[a], mem[a + 1] := ByteOf(v, 0), ByteOf(v, 1);
      }
    }

    method Write32(a: Word, v: Word)
      requires Valid()
      modifies mem
      ensures Valid() && View() == old(View()).(mem := W32(old(mem[..]), a, v))
    {
      if a + 4 <= mem.Length {
        mem[a], mem[a + 1], mem[a + 2], mem[a + 3] :=
          ByteOf(v, 0), ByteOf(v, 1), ByteOf(v, 2), ByteOf(v, 3);
      }
    }
  }
}
