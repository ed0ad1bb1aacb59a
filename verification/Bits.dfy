/** Words bit by bit: what the operators and the shifter do to each of the 32 bits. */
module Bits {
  import opened Words
  import opened Shifts

  /** Bit k, counted from the least significant. */
  predicate Bit(x: nat, k: nat) {
    x / Pow2(k) % 2 == 1
  }

  // ---- arithmetic ----

  lemma QuotientAdds(y: nat, d: nat, c: nat)
    requires d > 0
    ensures (y + d * c) / d == y / d + c
  {
    assert y + d * c == d * (y / d + c) + y % d by {
      QuotientParts(y, d);
      assert d * (y / d + c) == d * (y / d) + d * c;
    }
    DivUnique(y + d * c, d, y / d + c, y % d);
  }

  lemma Regroup(p: nat, half: nat, c: nat)
    ensures p * (2 * half) * c == p * (2 * (half * c))
  {
  }

  lemma EvenIgnored(q: nat, e: nat)
    ensures (q + 2 * e) % 2 == q % 2
  {
  }

  lemma PowerParts(k: nat, t: nat)
    requires k < t
    ensures Pow2(t) == Pow2(k) * (2 * Pow2(t - k - 1))
  {
    Pow2Adds(k, t - k);
  }

  lemma QuotientEven(y: nat, p: nat, e: nat)
    requires p > 0
    ensures (y + p * (2 * e)) / p % 2 == y / p % 2
  {
    QuotientAdds(y, p, 2 * e);
    EvenIgnored(y / p, e);
  }

  /** A multiple of a higher power of two leaves the bit alone. */
  lemma HigherIgnored(y: nat, k: nat, t: nat, c: nat)
    requires k < t
    ensures Bit(y + Pow2(t) * c, k) == Bit(y, k)
  {
    hide Pow2;
    PowerParts(k, t);
    var p, half := Pow2(k), Pow2(t - k - 1);
    Regroup(p, half, c);
    QuotientEven(y, p, half * c);
  }

  /** The top bit of a number of t + 1 bits. */
  lemma TopBit(x: nat, t: nat)
    requires x < Pow2(t + 1)
    ensures Bit(x, t) <==> x >= Pow2(t)
  {
    var p := Pow2(t);
    if x >= p {
      DivUnique(x, p, 1, x - p);
    } else {
      DivUnique(x, p, 0, x);
    }
  }

  lemma BitZero(x: nat)
    ensures Bit(x, 0) <==> x % 2 == 1
  {
    assert Pow2(0) == 1;
    assert x / 1 == x;
  }

  lemma HalfBit(x: nat, k: nat)
    ensures Bit(x / 2, k) == Bit(x, k + 1)
  {
    var d := Pow2(k);
    QuotientParts(x, 2);
    QuotientParts(x / 2, d);
    var q, r := x / 2 / d, x / 2 % d;
    assert x == (2 * d) * q + (2 * r + x % 2) by {
      assert 2 * (d * q) == (2 * d) * q;
    }
    DivUnique(x, 2 * d, q, 2 * r + x % 2);
  }

  // ---- operators ----

  lemma Doubles(n: nat)
    requires n > 0
    ensures Pow2(n) == 2 * Pow2(n - 1)
  {
  }

  lemma ZipHigh(op: BitOp, n: nat, a: nat, b: nat)
    requires n > 0 && a < Pow2(n) && b < Pow2(n)
    ensures var p := Pow2(n - 1);
            var r := Zip(op, n, a, b);
            match op
            case BitAnd => r >= p <==> a >= p && b >= p
            case BitOr => r >= p <==> a >= p || b >= p
            case BitXor => r >= p <==> (a >= p) != (b >= p)
  {
  }

  lemma {:induction false} ZipBits(op: BitOp, n: nat, a: nat, b: nat, k: nat)
    requires a < Pow2(n) && b < Pow2(n) && k < n
    ensures var r := Zip(op, n, a, b);
            match op
            case BitAnd => Bit(r, k) <==> Bit(a, k) && Bit(b, k)
            case BitOr => Bit(r, k) <==> Bit(a, k) || Bit(b, k)
            case BitXor => Bit(r, k) <==> Bit(a, k) != Bit(b, k)
  {
    hide Bit, Zip, Pow2;
    Doubles(n);
    var t := n - 1;
    var p := Pow2(t);
    var a1, b1 := if a >= p then a - p else a, if b >= p then b - p else b;
    var r, r1 := Zip(op, n, a, b), Zip(op, t, a1, b1);
    if k == t {
      TopBit(a, t);
      TopBit(b, t);
      TopBit(r, t);
      ZipHigh(op, n, a, b);
    } else {
      ZipBits(op, t, a1, b1, k);
      HigherIgnored(a1, k, t, 1);
      HigherIgnored(b1, k, t, 1);
      HigherIgnored(r1, k, t, 1);
      ZipTop(op, n, a, b);
    }
  }

  lemma ZipTop(op: BitOp, n: nat, a: nat, b: nat)
    requires n > 0 && a < Pow2(n) && b < Pow2(n)
    ensures var p := Pow2(n - 1);
            var r1 := Zip(op, n - 1, if a >= p then a - p else a, if b >= p then b - p else b);
            Zip(op, n, a, b) == r1 || Zip(op, n, a, b) == r1 + p
  {
  }

  /** Each bit of a bitwise operation is that operation of the two bits. */
  lemma BitwiseBits(a: Word, b: Word, k: nat)
    requires k < 32
    ensures Bit(Bitwise(BitAnd, a, b), k) <==> Bit(a, k) && Bit(b, k)
    ensures Bit(Bitwise(BitOr, a, b), k) <==> Bit(a, k) || Bit(b, k)
    ensures Bit(Bitwise(BitXor, a, b), k) <==> Bit(a, k) != Bit(b, k)
  {
    Pow2Of32();
    hide Bit, Zip;
    ZipBits(BitAnd, 32, a, b, k);
    ZipBits(BitOr, 32, a, b, k);
    ZipBits(BitXor, 32, a, b, k);
  }

  lemma {:induction false} ComplementBits(n: nat, x: nat, k: nat)
    requires x < Pow2(n) && k < n
    ensures Bit(Pow2(n) - 1 - x, k) == !Bit(x, k)
    decreases k
  {
    hide Bit;
    Doubles(n);
    var y: nat := Pow2(n) - 1 - x;
    if k == 0 {
      BitZero(x);
      BitZero(y);
    } else {
      assert y / 2 == Pow2(n - 1) - 1 - x / 2;
      ComplementBits(n - 1, x / 2, k - 1);
      HalfBit(x, k - 1);
      HalfBit(y, k - 1);
    }
  }

  /** The complement turns every bit over. */
  lemma NotBits(a: Word, k: nat)
    requires k < 32
    ensures Bit(Not(a), k) == !Bit(a, k)
  {
    hide Bit;
    Pow2Of32();
    ComplementBits(32, a, k);
  }

  // ---- the shifter ----

  /** The bit of x that a shift by n brings to place k; none when zero comes in. */
  function Source(kind: ShiftKind, n: nat, k: nat): int {
    match kind
    case Lsl => k - n
    case Lsr => if k + n < 32 then k + n else -1
    case Asr => if k + n < 32 then k + n else 31
    case Ror => (k + n) % 32
  }

  predicate BitOrZero(x: Word, k: int) {
    k >= 0 && Bit(x, k)
  }

  lemma LslLow(x: Word)
    ensures OneBit(Lsl, x) == 2 * (if x < 0x8000_0000 then x as int else x as int - 0x8000_0000)
  {
  }

  lemma LslBits(x: Word, k: nat)
    requires k < 32
    ensures Bit(OneBit(Lsl, x), k) <==> k > 0 && Bit(x, k - 1)
  {
    hide Bit, OneBit, Pow2;
    var low: nat := if x < 0x8000_0000 then x else x - 0x8000_0000;
    LslLow(x);
    Pow2Of32();
    if k == 0 {
      BitZero(2 * low);
    } else {
      HalfBit(2 * low, k - 1);
      HigherIgnored(low, k - 1, 31, 1);
    }
  }

  /** A shift to the right, with the bit that comes in at the top. */
  lemma RightBits(x: Word, top: bool, k: nat)
    requires k < 32
    ensures Bit(x / 2 + (if top then 0x8000_0000 else 0), k) <==> if k < 31 then Bit(x, k + 1) else top
  {
    Pow2Of32();
    hide Bit, Pow2;
    HalfBit(x, k);
    if k < 31 {
      HigherIgnored(x / 2, k, 31, 1);
    } else {
      TopBit(x / 2 + (if top then 0x8000_0000 else 0), 31);
    }
  }

  lemma OneBitBits(kind: ShiftKind, x: Word, k: nat)
    requires k < 32
    ensures Bit(OneBit(kind, x), k) <==> BitOrZero(x, Source(kind, 1, k))
  {
    Pow2Of32();
    hide Bit, Pow2;
    match kind
    case Lsl => LslBits(x, k);
    case Lsr => RightBits(x, false, k);
    case Asr =>
      TopBit(x, 31);
      RightBits(x, x >= 0x8000_0000, k);
    case Ror =>
      BitZero(x);
      RightBits(x, x % 2 == 1, k);
  }

  /** Each bit of a shifted word is the bit the shift brings there, for every amount. */
  lemma {:induction false} ShiftedBits(kind: ShiftKind, x: Word, n: nat, k: nat)
    requires k < 32
    ensures Bit(Shifted(kind, x, n), k) <==> BitOrZero(x, Source(kind, n, k))
  {
    hide Bit, OneBit;
    if n > 0 {
      var y := Shifted(kind, x, n - 1);
      OneBitBits(kind, y, k);
      var j := Source(kind, 1, k);
      if j >= 0 {
        ShiftedBits(kind, x, n - 1, j);
        SourceSteps(kind, n, k);
      }
    } else {
      assert Source(Ror, 0, k) == k;
    }
  }

  lemma SourceSteps(kind: ShiftKind, n: nat, k: nat)
    requires n > 0 && k < 32 && Source(kind, 1, k) >= 0
    ensures Source(kind, 1, k) < 32
    ensures Source(kind, n, k) == Source(kind, n - 1, Source(kind, 1, k))
            || (Source(kind, n, k) < 0 && Source(kind, n - 1, Source(kind, 1, k)) < 0)
  {
  }

  /** The carry out of a shift by n is the last bit moved out of x (DDI 0100, A5.1). */
  lemma CarryOutIs(kind: ShiftKind, x: Word, n: nat, carry: bool)
    ensures n == 0 ==> CarryOut(kind, x, n, carry) == carry
    ensures n > 0 ==>
              match kind
              case Lsl => CarryOut(Lsl, x, n, carry) <==> n <= 32 && Bit(x, 32 - n)
              case Lsr => CarryOut(Lsr, x, n, carry) <==> n <= 32 && Bit(x, n - 1)
              case Asr => CarryOut(Asr, x, n, carry) <==> Bit(x, if n <= 32 then n - 1 else 31)
              case Ror => CarryOut(Ror, x, n, carry) <==> Bit(x, (n - 1) % 32)
  {
    if n > 0 {
      var y := Shifted(kind, x, n - 1);
      Pow2Of32();
      hide Shifted;
      BitZero(y);
      TopBit(y, 31);
      hide Bit;
      ShiftedBits(kind, x, n - 1, 0);
      ShiftedBits(kind, x, n - 1, 31);
    }
  }
}
