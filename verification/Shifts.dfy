/** The barrel shifter. ARM shifts are repetitions of a one-bit step; the
    runtime computes them with C shifts. The two agree for every amount. */
module Shifts {
  import opened Words

  datatype ShiftKind = Lsl | Lsr | Asr | Ror

  /** One step of the shifter, by one bit. */
  function OneBit(kind: ShiftKind, x: Word): Word {
    match kind
    case Lsl => if x < 0x8000_0000 then 2 * x else 2 * (x - 0x8000_0000)
    case Lsr => x / 2
    case Asr => if x < 0x8000_0000 then x / 2 else x / 2 + 0x8000_0000
    case Ror => if x % 2 == 0 then x / 2 else x / 2 + 0x8000_0000
  }

  /** The bit that one step moves out of the word. */
  predicate BitOut(kind: ShiftKind, x: Word) {
    match kind
    case Lsl => x >= 0x8000_0000
    case _ => x % 2 == 1
  }

  function Shifted(kind: ShiftKind, x: Word, n: nat): Word {
    if n == 0 then x else OneBit(kind, Shifted(kind, x, n - 1))
  }

  /** Shifter carry-out: the last bit moved out, or the old carry (DDI 0100, A5.1). */
  predicate CarryOut(kind: ShiftKind, x: Word, n: nat, carry: bool) {
    if n == 0 then carry else BitOut(kind, Shifted(kind, x, n - 1))
  }

  // ---- what the lifter and the runtime compute ----

  /** A constant shift as the lifter renders it, for amounts 1 to 31. */
  function ConstShift(kind: ShiftKind, x: Word, k: nat): Word
    requires 1 <= k <= 31
  {
    match kind
    case Lsl => Shl(x, k)
    case Lsr => Shr(x, k)
    case Asr => Sar(x, k)
    case Ror => Bitwise(BitOr, Shr(x, k), Shl(x, 32 - k))
  }

  /** `ngage_lsl`, `ngage_lsr`, `ngage_asr` and `ngage_ror`. */
  function AmountShift(kind: ShiftKind, x: Word, amount: Word): Word {
    var amt := amount % 0x100;
    match kind
    case Lsl => if amt >= 32 then 0 else Shl(x, amt)
    case Lsr => if amt >= 32 then 0 else Shr(x, amt)
    case Asr => Sar(x, if amt >= 32 then 31 else amt)
    case Ror =>
      if amt == 0 then x
      else if amt % 32 == 0 then x
      else Bitwise(BitOr, Shr(x, amt % 32), Shl(x, 32 - amt % 32))
  }

  // ---- arithmetic ----

  lemma MulBound(d: int, e: int)
    requires d > 0
    ensures e >= 1 ==> d * e >= d
    ensures e <= -1 ==> d * e <= -d
  {
    if e >= 1 {
      assert d * e == d + d * (e - 1);
    } else if e <= -1 {
      assert d * e == -d + d * (e + 1);
    }
  }

  lemma DivUnique(x: int, d: int, q: int, r: int)
    requires d > 0 && 0 <= r < d && x == d * q + r
    ensures x / d == q && x % d == r
  {
    var q', r' := x / d, x % d;
    assert x == d * q' + r';
    assert d * (q - q') == r' - r;
    MulBound(d, q - q');
  }

  lemma WrapPeriod(x: int, q: int)
    ensures Wrap(x + 0x1_0000_0000 * q) == Wrap(x)
  {
    DivUnique(x + 0x1_0000_0000 * q, 0x1_0000_0000, x / 0x1_0000_0000 + q, Wrap(x));
  }

  lemma WrapAdds(x: int, y: int)
    ensures Wrap(Wrap(x) + y) == Wrap(x + y)
    ensures Wrap(x + Wrap(y)) == Wrap(x + y)
    ensures Wrap(x - Wrap(y)) == Wrap(x - y)
  {
    var u, v := x / 0x1_0000_0000, y / 0x1_0000_0000;
    assert x == 0x1_0000_0000 * u + Wrap(x) && y == 0x1_0000_0000 * v + Wrap(y);
    WrapPeriod(Wrap(x) + y, u);
    WrapPeriod(x + Wrap(y), v);
    WrapPeriod(x - y, v);
  }

  lemma HalveParts(d: int, h: int, b: int)
    requires d > 0 && 0 <= b <= 1
    ensures d * (2 * h + b) == (2 * d) * h + d * b && 0 <= d * b <= d
  {
    assert b == 0 || b == 1;
  }

  lemma QuotientParts(x: int, d: int)
    requires d > 0
    ensures x == d * (x / d) + x % d && 0 <= x % d < d
  {
  }

  lemma HalveQuotient(x: int, d: int)
    requires d > 0
    ensures x / (2 * d) == (x / d) / 2
    ensures x % (2 * d) == d * ((x / d) % 2) + x % d
  {
    QuotientParts(x, d);
    var q, r := x / d, x % d;
    HalveParts(d, q / 2, q % 2);
    DivUnique(x, 2 * d, q / 2, d * (q % 2) + r);
  }

  lemma DoubleProduct(x: int, p: int)
    ensures x * (2 * p) == 2 * (x * p)
  {
  }

  lemma Pow2Adds(a: nat, b: nat)
    ensures Pow2(a + b) == Pow2(a) * Pow2(b)
  {
    if a > 0 {
      Pow2Adds(a - 1, b);
    }
  }

  // ---- constant shifts ----

  lemma StepLslWraps(y: int)
    ensures OneBit(Lsl, Wrap(y)) == Wrap(2 * y)
  {
    var q, w := y / 0x1_0000_0000, y % 0x1_0000_0000;
    if w < 0x8000_0000 {
      DivUnique(2 * y, 0x1_0000_0000, 2 * q, 2 * w);
    } else {
      DivUnique(2 * y, 0x1_0000_0000, 2 * q + 1, 2 * w - 0x1_0000_0000);
    }
  }

  lemma {:induction false} ShlRepeats(x: Word, k: nat)
    ensures Shl(x, k) == Shifted(Lsl, x, k)
  {
    if k > 0 {
      ShlRepeats(x, k - 1);
      DoubleProduct(x, Pow2(k - 1));
      StepLslWraps(x * Pow2(k - 1));
    }
  }

  lemma {:induction false} ShrRepeats(x: Word, k: nat)
    ensures Shr(x, k) == Shifted(Lsr, x, k)
  {
    if k > 0 {
      ShrRepeats(x, k - 1);
      HalveQuotient(x, Pow2(k - 1));
    }
  }

  lemma ScaleUp(d: int, q: int)
    requires d >= 1
    ensures q >= 0 ==> d * q >= q
    ensures q <= 0 ==> d * q <= q
  {
  }

  lemma SignedDivRange(x: Word, d: int)
    requires d >= 1
    ensures -0x8000_0000 <= Signed(x) / d < 0x8000_0000
  {
    var s := Signed(x);
    var q, r := s / d, s % d;
    assert s == d * q + r;
    assert d * (q + 1) == d * q + d;
    ScaleUp(d, q);
    ScaleUp(d, q + 1);
  }

  lemma StepAsrHalves(s: int)
    requires -0x8000_0000 <= s < 0x8000_0000
    ensures OneBit(Asr, Wrap(s)) == Wrap(s / 2)
  {
  }

  lemma {:induction false} SarRepeats(x: Word, k: nat)
    ensures Sar(x, k) == Shifted(Asr, x, k)
  {
    if k > 0 {
      SarRepeats(x, k - 1);
      HalveQuotient(Signed(x), Pow2(k - 1));
      SignedDivRange(x, Pow2(k - 1));
      StepAsrHalves(Signed(x) / Pow2(k - 1));
    } else {
      assert Signed(x) / Pow2(0) == Signed(x);
    }
  }

  /** One more rotation step, with p = 2^(k-1) and t = 2^(32-k). */
  lemma RorStep(x: Word, p: nat, t: nat)
    requires p > 0 && t > 0 && p * t == 0x8000_0000
    requires x / p + (x % p) * (2 * t) < 0x1_0000_0000
    ensures OneBit(Ror, x / p + (x % p) * (2 * t)) == x / (2 * p) + (x % (2 * p)) * t
  {
    var q, r := x / p, x % p;
    HalveQuotient(x, p);
    DoubleProduct(r, t);
    var m := r * t;
    if q % 2 == 1 {
      assert (p * 1 + r) * t == p * t + m;
    }
  }

  /** Rotation by k swaps the bits below k with the bits from k up. */
  lemma {:induction false} RorParts(x: Word, k: nat)
    requires k <= 32
    ensures Shifted(Ror, x, k) == x / Pow2(k) + (x % Pow2(k)) * Pow2(32 - k)
  {
    if k == 0 {
      assert x / Pow2(0) == x && x % Pow2(0) == 0;
    } else {
      RorParts(x, k - 1);
      Pow2Product(k - 1);
      RorStep(x, Pow2(k - 1), Pow2(32 - k));
    }
  }

  lemma Pow2Product(a: nat)
    requires a <= 31
    ensures Pow2(a) * Pow2(31 - a) == 0x8000_0000
    ensures Pow2(32 - a) == 2 * Pow2(31 - a)
    ensures Pow2(a) * Pow2(32 - a) == 0x1_0000_0000
  {
    Pow2Adds(a, 31 - a);
    Pow2Adds(a, 32 - a);
    Pow2Of32();
  }

  lemma MultipleBelow(x: nat, d: nat)
    requires d > 0 && x % d == 0 && x < d
    ensures x == 0
  {
  }

  lemma SubtractMultiple(x: nat, d: nat, c: nat)
    requires d > 0 && x % d == 0 && x >= c * d
    ensures (x - c * d) % d == 0
  {
    var q := x / d;
    assert x == d * q;
    assert x - c * d == d * (q - c);
    DivUnique(x - c * d, d, q - c, 0);
  }

  /** Above bit m only high has bits: what is left of it below bit n - 1. */
  lemma HighBit(n: nat, m: nat, low: nat, high: nat)
    requires m < n && low < Pow2(m) && high < Pow2(n) && high % Pow2(m) == 0
    ensures var p := Pow2(n - 1);
            var rest := if high >= p then high - p else high;
            low < p && 0 <= rest < p && rest % Pow2(m) == 0
  {
    assert Pow2(n) == 2 * Pow2(n - 1);
    hide Pow2;
    Pow2Adds(n - 1 - m, m);
    Pow2Monotone(m, n - 1);
    if high >= Pow2(n - 1) {
      SubtractMultiple(high, Pow2(m), Pow2(n - 1 - m));
    }
  }

  /** OR adds when the operands share no bit. */
  lemma {:induction false} ZipOrAdds(n: nat, m: nat, low: nat, high: nat)
    requires low < Pow2(m) && high % Pow2(m) == 0
    requires low < Pow2(n) && high < Pow2(n)
    ensures Zip(BitOr, n, low, high) == low + high
  {
    if n > 0 {
      var p := Pow2(n - 1);
      if n <= m {
        Pow2Monotone(n, m);
        MultipleBelow(high, Pow2(m));
        ZeroBelow(m);
        LowShrinks(n, m, low);
        ZipOrAdds(n - 1, m, if low >= p then low - p else low, 0);
      } else {
        HighBit(n, m, low, high);
        ZipOrAdds(n - 1, m, low, if high >= p then high - p else high);
      }
    }
  }

  lemma ZeroBelow(m: nat)
    ensures 0 % Pow2(m) == 0
  {
  }

  lemma LowShrinks(n: nat, m: nat, low: nat)
    requires 0 < n <= m && low < Pow2(n)
    ensures var p := Pow2(n - 1); var rest := if low >= p then low - p else low; 0 <= rest < p && rest < Pow2(m)
  {
    Pow2Monotone(n, m);
  }

  lemma Pow2Monotone(a: nat, b: nat)
    requires a <= b
    ensures Pow2(a) <= Pow2(b)
  {
    if a < b {
      Pow2Monotone(a, b - 1);
    }
  }

  lemma ZeroDivides(q: int, d: int)
    requires d > 0
    ensures (q * d) % d == 0
  {
    DivUnique(q * d, d, q, 0);
  }

  lemma WrapProduct(x: nat, p: nat, t: nat)
    requires p > 0 && t > 0 && p * t == 0x1_0000_0000
    ensures Wrap(x * t) == (x % p) * t
  {
    var q, r := x / p, x % p;
    assert x == p * q + r;
    assert x * t == 0x1_0000_0000 * q + r * t by {
      assert (p * q) * t == (p * t) * q;
    }
    assert r * t < 0x1_0000_0000 by {
      MulBound(t, p - r);
      assert t * (p - r) == p * t - r * t;
    }
    DivUnique(x * t, 0x1_0000_0000, q, r * t);
  }

  lemma QuotientBelow(x: nat, p: nat, t: nat)
    requires p > 0 && x < p * t
    ensures x / p < t
  {
    assert x == p * (x / p) + x % p;
    MulBound(p, x / p - t);
    assert p * (x / p - t) == p * (x / p) - p * t;
  }

  lemma RorRepeats(x: Word, k: nat)
    requires 1 <= k <= 31
    ensures Bitwise(BitOr, Shr(x, k), Shl(x, 32 - k)) == Shifted(Ror, x, k)
  {
    var p, t := Pow2(k), Pow2(32 - k);
    Pow2Product(k);
    WrapProduct(x, p, t);
    ZeroDivides(x % p, t);
    QuotientBelow(x, p, t);
    RorParts(x, k);
    assert Shr(x, k) == x / p && Shl(x, 32 - k) == (x % p) * t;
    Pow2Of32();
    ZipOrAdds(32, 32 - k, x / p, (x % p) * t);
  }

  /** The lifter's constant shifts are the barrel shifter's. */
  lemma ConstShiftCorrect(kind: ShiftKind, x: Word, k: nat)
    requires 1 <= k <= 31
    ensures ConstShift(kind, x, k) == Shifted(kind, x, k)
  {
    match kind
    case Lsl => ShlRepeats(x, k);
    case Lsr => ShrRepeats(x, k);
    case Asr => SarRepeats(x, k);
    case Ror => RorRepeats(x, k);
  }

  // ---- amounts of 32 and more ----

  lemma {:induction false} LogicalExhausted(kind: ShiftKind, x: Word, n: nat)
    requires kind == Lsl || kind == Lsr
    requires n >= 32
    ensures Shifted(kind, x, n) == 0
  {
    if n == 32 {
      Pow2Of32();
      ShlRepeats(x, 32);
      ShrRepeats(x, 32);
      assert Shl(x, 32) == 0 by { ZeroDivides(x, 0x1_0000_0000); }
      DivUnique(x, Pow2(32), 0, x);
    } else {
      LogicalExhausted(kind, x, n - 1);
    }
  }

  lemma {:induction false} AsrExhausted(x: Word, n: nat)
    requires n >= 31
    ensures Shifted(Asr, x, n) == (if x < 0x8000_0000 then 0 else 0xFFFF_FFFF)
  {
    if n == 31 {
      Pow2Of32();
      SarRepeats(x, 31);
      if x < 0x8000_0000 {
        DivUnique(x, 0x8000_0000, 0, x);
      } else {
        DivUnique(Signed(x), 0x8000_0000, -1, Signed(x) + 0x8000_0000);
      }
    } else {
      AsrExhausted(x, n - 1);
    }
  }

  lemma {:induction false} ShiftedAdds(kind: ShiftKind, x: Word, a: nat, b: nat)
    ensures Shifted(kind, x, a + b) == Shifted(kind, Shifted(kind, x, a), b)
  {
    if b > 0 {
      ShiftedAdds(kind, x, a, b - 1);
    }
  }

  lemma RorFull(x: Word)
    ensures Shifted(Ror, x, 32) == x
  {
    RorParts(x, 32);
    Pow2Of32();
    assert Pow2(0) == 1;
    var w := 0x1_0000_0000;
    assert x / w == 0 && x % w == x;
  }

  lemma ModDown(n: nat)
    ensures n < 32 ==> n % 32 == n
    ensures n >= 32 ==> (n - 32) % 32 == n % 32
  {
  }

  lemma {:induction false} RorPeriod(x: Word, n: nat)
    ensures Shifted(Ror, x, n) == Shifted(Ror, x, n % 32)
  {
    hide Shifted;
    ModDown(n);
    if n >= 32 {
      RorFull(x);
      ShiftedAdds(Ror, x, 32, n - 32);
      RorPeriod(x, n - 32);
    }
  }

  /** Register-amount shifts use the low byte of the amount and agree with
      that many one-bit steps, also at 32 and above. */
  lemma AmountShiftCorrect(kind: ShiftKind, x: Word, amount: Word)
    ensures AmountShift(kind, x, amount) == Shifted(kind, x, amount % 0x100)
  {
    var amt := amount % 0x100;
    match kind
    case Lsl => if amt >= 32 { LogicalExhausted(Lsl, x, amt); } else { ShlRepeats(x, amt); }
    case Lsr => if amt >= 32 { LogicalExhausted(Lsr, x, amt); } else { ShrRepeats(x, amt); }
    case Asr =>
      if amt >= 32 {
        AsrExhausted(x, amt);
        AsrExhausted(x, 31);
        SarRepeats(x, 31);
      } else {
        SarRepeats(x, amt);
      }
    case Ror =>
      RorPeriod(x, amt);
      if amt % 32 != 0 { RorRepeats(x, amt % 32); }
  }
}
