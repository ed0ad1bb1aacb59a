/** 32-bit words and bytes as bounded integers, with the C operators the
    generated code and the runtime apply to them. */
module Words {

  type Word = x: int | 0 <= x < 0x1_0000_0000
  type Byte = x: int | 0 <= x < 0x100

  /** Conversion to uint32_t. */
  function Wrap(x: int): Word {
    x % 0x1_0000_0000
  }

  /** The int32_t with the same bits. */
  function Signed(w: Word): int {
    if w < 0x8000_0000 then w else w - 0x1_0000_0000
  }

  function Pow2(n: nat): (p: nat)
    ensures p >= 1
  {
    if n == 0 then 1 else 2 * Pow2(n - 1)
  }

  // ---- bitwise operators, bit by bit from the most significant one ----

  datatype BitOp = BitAnd | BitOr | BitXor

  predicate OnBits(op: BitOp, x: bool, y: bool) {
    match op
    case BitAnd => x && y
    case BitOr => x || y
    case BitXor => x != y
  }

  /** Applies op to the low n bits of a and b. */
  function Zip(op: BitOp, n: nat, a: nat, b: nat): (r: nat)
    requires a < Pow2(n) && b < Pow2(n)
    ensures r < Pow2(n)
  {
    if n == 0 then 0
    else
      var p := Pow2(n - 1);
      (if OnBits(op, a >= p, b >= p) then p else 0)
      + Zip(op, n - 1, if a >= p then a - p else a, if b >= p then b - p else b)
  }

  lemma Pow2Of32()
    ensures Pow2(32) == 0x1_0000_0000 && Pow2(31) == 0x8000_0000
  {
    assert Pow2(8) == 0x100;
    assert Pow2(16) == 0x1_0000;
    assert Pow2(24) == 0x100_0000;
    assert Pow2(31) == 0x8000_0000;
  }

  function Bitwise(op: BitOp, a: Word, b: Word): Word {
    Pow2Of32();
    Zip(op, 32, a, b)
  }

  function Not(a: Word): Word {
    0xFFFF_FFFF - a
  }

  /** The sign bit of a bitwise combination is that combination of sign bits. */
  lemma BitwiseTop(op: BitOp, a: Word, b: Word)
    ensures Bitwise(op, a, b) >= 0x8000_0000 <==> OnBits(op, a >= 0x8000_0000, b >= 0x8000_0000)
  {
    Pow2Of32();
  }

  // ---- shifts by a constant below 32, as C evaluates them ----

  function Shl(x: Word, k: nat): Word {
    Wrap(x * Pow2(k))
  }

  function Shr(x: Word, k: nat): Word {
    DivShrinks(x, Pow2(k));
    x / Pow2(k)
  }

  /** `(uint32_t)((int32_t)x >> k)`. */
  function Sar(x: Word, k: nat): Word {
    Wrap(Signed(x) / Pow2(k))
  }

  lemma DivShrinks(x: nat, p: nat)
    requires p >= 1
    ensures 0 <= x / p <= x
  {
  }

  lemma WrapNear(y: int)
    requires -0x1_0000_0000 <= y < 0x2_0000_0000
    ensures Wrap(y) == (if y < 0 then y + 0x1_0000_0000 else if y < 0x1_0000_0000 then y else y - 0x1_0000_0000)
  {
  }
}
