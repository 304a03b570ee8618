/** Bit-level views of unsigned integers: C's `|`, `&`, `&~`, `<<` and `>>` on naturals. */
module Bits {
  import opened ModArith

  function Pow2(k: nat): (p: nat)
    ensures p > 0
  {
    if k == 0 then 1 else 2 * Pow2(k - 1)
  }

  predicate Bit(v: nat, i: nat) {
    v / Pow2(i) % 2 == 1
  }

  /** `v >> n` */
  function Shr(v: nat, n: nat): nat {
    DivNat(v, Pow2(n));
    v / Pow2(n)
  }

  /** `v << n` before it is cut to the word size */
  function Shl(v: nat, n: nat): nat {
    MulNat(v, Pow2(n));
    v * Pow2(n)
  }

  lemma DivNat(a: nat, b: nat)
    requires b > 0
    ensures a / b >= 0
  {
  }

  lemma MulNat(a: nat, b: nat)
    ensures a * b >= 0
  {
  }

  /** `a | b` */
  function Or(a: nat, b: nat): nat
    decreases a + b
  {
    if a == 0 && b == 0 then 0
    else (if a % 2 == 1 || b % 2 == 1 then 1 else 0) + 2 * Or(a / 2, b / 2)
  }

  /** `a & b` */
  function And(a: nat, b: nat): nat
    decreases a + b
  {
    if a == 0 && b == 0 then 0
    else (if a % 2 == 1 && b % 2 == 1 then 1 else 0) + 2 * And(a / 2, b / 2)
  }

  /** `a & ~b` */
  function AndNot(a: nat, b: nat): nat {
    if a == 0 then 0
    else (if a % 2 == 1 && b % 2 == 0 then 1 else 0) + 2 * AndNot(a / 2, b / 2)
  }

  lemma BitHead(v: nat)
    ensures Bit(v, 0) <==> v % 2 == 1
  {
  }

  /** Bit i+1 of a number is bit i of its half. */
  lemma BitTail(v: nat, i: nat)
    ensures Bit(v, i + 1) == Bit(v / 2, i)
  {
    DivDiv(v, 2, Pow2(i));
  }

  lemma DivDiv(v: nat, a: nat, b: nat)
    requires a > 0 && b > 0
    ensures a * b > 0 && v / (a * b) == v / a / b
  {
    var q, r := v / a / b, v / a % b;
    Positive(a, b);
    assert v == a * (b * q + r) + v % a;
    assert v == (a * b) * q + (a * r + v % a) by {
      assert a * (b * q + r) == a * (b * q) + a * r;
      Assoc(a, b, q);
    }
    MulLess(a, r, b);
    DivModUnique(v, a * b, q, a * r + v % a);
  }

  lemma Positive(a: nat, b: nat)
    requires a > 0 && b > 0
    ensures a * b > 0
  {
  }

  lemma Assoc(a: int, b: int, c: int)
    ensures a * (b * c) == (a * b) * c
  {
  }

  lemma MulLess(a: nat, r: nat, b: nat)
    requires r < b && a > 0
    ensures a * r + a <= a * b
  {
    assert a * (r + 1) <= a * b;
    assert a * (r + 1) == a * r + a;
  }

  lemma {:induction false} BitOr(a: nat, b: nat, i: nat)
    ensures Bit(Or(a, b), i) <==> Bit(a, i) || Bit(b, i)
    decreases i
  {
    if i == 0 {
      BitHead(a); BitHead(b); BitHead(Or(a, b));
    } else {
      BitTail(a, i - 1); BitTail(b, i - 1); BitTail(Or(a, b), i - 1);
      assert Or(a, b) / 2 == Or(a / 2, b / 2);
      BitOr(a / 2, b / 2, i - 1);
    }
  }

  lemma {:induction false} BitAndNot(a: nat, b: nat, i: nat)
    ensures Bit(AndNot(a, b), i) <==> Bit(a, i) && !Bit(b, i)
    decreases i
  {
    if i == 0 {
      BitHead(a); BitHead(b); BitHead(AndNot(a, b));
    } else {
      BitTail(a, i - 1); BitTail(b, i - 1); BitTail(AndNot(a, b), i - 1);
      assert AndNot(a, b) / 2 == AndNot(a / 2, b / 2);
      BitAndNot(a / 2, b / 2, i - 1);
    }
  }

  lemma {:induction false} BitPow2(k: nat, i: nat)
    ensures Bit(Pow2(k), i) <==> i == k
    decreases i
  {
    hide Bit;
    if i == 0 {
      BitHead(Pow2(k));
    } else {
      BitTail(Pow2(k), i - 1);
      if k > 0 {
        BitPow2(k - 1, i - 1);
      } else {
        ZeroBits(i - 1);
      }
    }
  }

  lemma ZeroBits(i: nat)
    ensures !Bit(0, i)
  {
  }

  /** A number below 2^n has no bit at or above n. */
  lemma {:induction false} HighBits(v: nat, n: nat, i: nat)
    requires v < Pow2(n) && n <= i
    ensures !Bit(v, i)
    decreases i
  {
    if i == 0 {
      BitHead(v);
    } else if n == 0 {
      ZeroBits(i);
    } else {
      BitTail(v, i - 1);
      HighBits(v / 2, n - 1, i - 1);
    }
  }

  /** Numbers below 2^n with the same n low bits are equal. */
  lemma {:induction false} SameBits(a: nat, b: nat, n: nat)
    requires a < Pow2(n) && b < Pow2(n)
    requires forall i :: 0 <= i < n ==> Bit(a, i) == Bit(b, i)
    ensures a == b
    decreases n
  {
    if n > 0 {
      BitHead(a); BitHead(b);
      assert Bit(a, 0) == Bit(b, 0);
      forall i | 0 <= i < n - 1 ensures Bit(a / 2, i) == Bit(b / 2, i) {
        BitTail(a, i); BitTail(b, i);
        assert Bit(a, i + 1) == Bit(b, i + 1);
      }
      SameBits(a / 2, b / 2, n - 1);
    }
  }

  lemma {:induction false} OrBound(a: nat, b: nat, n: nat)
    requires a < Pow2(n) && b < Pow2(n)
    ensures Or(a, b) < Pow2(n)
    decreases n
  {
    if n > 0 {
      OrBound(a / 2, b / 2, n - 1);
    }
  }

  lemma {:induction false} AndNotBound(a: nat, b: nat)
    ensures AndNot(a, b) <= a
    decreases a
  {
    if a > 0 {
      AndNotBound(a / 2, b / 2);
    }
  }

  lemma {:induction false} Pow2Add(m: nat, n: nat)
    ensures Pow2(m + n) == Pow2(m) * Pow2(n)
    decreases m
  {
    if m > 0 {
      Pow2Add(m - 1, n);
      Assoc(2, Pow2(m - 1), Pow2(n));
    }
  }

  lemma {:induction false} Pow2Less(m: nat, n: nat)
    requires m < n
    ensures Pow2(m) < Pow2(n)
    decreases n
  {
    if m < n - 1 {
      Pow2Less(m, n - 1);
    }
  }

  /** The bits of a number put together from a high and a low part. */
  lemma {:induction false} BitSplit(hi: nat, lo: nat, n: nat, i: nat)
    requires lo < Pow2(n)
    ensures Bit(hi * Pow2(n) + lo, i) == if i < n then Bit(lo, i) else Bit(hi, i - n)
    decreases n
  {
    hide Bit;
    var v := hi * Pow2(n) + lo;
    if n == 0 {
      assert v == hi;
    } else {
      Halve(hi, lo, Pow2(n - 1));
      if i == 0 {
        BitHead(v); BitHead(lo);
      } else {
        BitTail(v, i - 1); BitTail(lo, i - 1);
        BitSplit(hi, lo / 2, n - 1, i - 1);
      }
    }
  }

  lemma Halve(hi: nat, lo: nat, p: nat)
    ensures (hi * (2 * p) + lo) / 2 == hi * p + lo / 2
    ensures (hi * (2 * p) + lo) % 2 == lo % 2
  {
    assert hi * (2 * p) == 2 * (hi * p);
  }

  lemma BitMod(v: nat, n: nat, i: nat)
    ensures Bit(v % Pow2(n), i) == (i < n && Bit(v, i))
  {
    hide Bit, Pow2;
    var p := Pow2(n);
    assert v == v / p * p + v % p;
    BitSplit(v / p, v % p, n, i);
    if i >= n {
      HighBits(v % p, n, i);
    }
  }

  lemma BitDiv(v: nat, n: nat, i: nat)
    ensures Bit(Shr(v, n), i) == Bit(v, i + n)
  {
    hide Bit, Pow2;
    var p := Pow2(n);
    assert v == v / p * p + v % p;
    BitSplit(v / p, v % p, n, i + n);
  }

  /** The powers that masks and field positions of the sources use. */
  lemma Pow2Values()
    ensures Pow2(1) == 2 && Pow2(2) == 4 && Pow2(3) == 8 && Pow2(4) == 16 && Pow2(5) == 32 && Pow2(6) == 64
    ensures Pow2(8) == 0x100 && Pow2(12) == 0x1000 && Pow2(16) == 0x1_0000 && Pow2(20) == 0x10_0000
    ensures Pow2(28) == 0x1000_0000 && Pow2(31) == 0x8000_0000 && Pow2(32) == 0x1_0000_0000
    ensures Pow2(64) == 0x1_0000_0000_0000_0000
  {
    assert Pow2(6) == 64;
    Pow2Add(4, 4);
    Pow2Add(8, 4);
    Pow2Add(8, 8);
    Pow2Add(16, 4);
    Pow2Add(16, 12);
    Pow2Add(28, 3);
    Pow2Add(16, 16);
    Pow2Add(32, 32);
  }

  // ---- Masks -----------------------------------------------------------------

  /** `v & (2^n - 1)` and `v & ~(2^n - 1)` */
  lemma {:induction false} LowMask(v: nat, n: nat)
    ensures And(v, Pow2(n) - 1) == v % Pow2(n)
    ensures AndNot(v, Pow2(n) - 1) == v - v % Pow2(n)
    decreases n
  {
    if n == 0 {
      AndZero(v);
    } else {
      LowMask(v / 2, n - 1);
      HalveMod(v, Pow2(n - 1));
      if v == 0 {
        AndZeroLeft(Pow2(n) - 1);
      } else {
        assert (Pow2(n) - 1) / 2 == Pow2(n - 1) - 1 && (Pow2(n) - 1) % 2 == 1;
      }
    }
  }

  lemma {:induction false} AndZero(v: nat)
    ensures And(v, 0) == 0 && AndNot(v, 0) == v
    decreases v
  {
    if v > 0 {
      AndZero(v / 2);
    }
  }

  lemma {:induction false} AndZeroLeft(v: nat)
    ensures And(0, v) == 0
    decreases v
  {
    if v > 0 {
      AndZeroLeft(v / 2);
    }
  }

  lemma HalveMod(v: nat, p: nat)
    requires p > 0
    ensures v % (2 * p) == v / 2 % p * 2 + v % 2
  {
    var q, r := v / 2 / p, v / 2 % p;
    assert v / 2 == p * q + r;
    assert v == (2 * p) * q + (2 * r + v % 2) by {
      assert (2 * p) * q == 2 * (p * q);
    }
    DivModUnique(v, 2 * p, q, 2 * r + v % 2);
  }

  /** Numbers without a common bit: `|` adds. */
  lemma {:induction false} OrAdds(hi: nat, lo: nat, n: nat)
    requires lo < Pow2(n)
    ensures Or(hi * Pow2(n), lo) == hi * Pow2(n) + lo
    decreases n
  {
    if n == 0 {
      OrZero(hi);
    } else {
      var v := hi * Pow2(n);
      Halve(hi, 0, Pow2(n - 1));
      OrAdds(hi, lo / 2, n - 1);
    }
  }

  lemma {:induction false} OrZero(v: nat)
    ensures Or(v, 0) == v
    decreases v
  {
    if v > 0 {
      OrZero(v / 2);
    }
  }

  /** Masking with a shifted mask looks at the shifted number. */
  lemma {:induction false} AndShifted(v: nat, mask: nat, n: nat)
    ensures And(v, Shl(mask, n)) == Shl(And(Shr(v, n), mask), n)
    decreases n
  {
    hide And, Shl, Shr;
    ShiftStep(v, n);
    ShiftStep(mask, n);
    if n == 0 {
      ShiftStep(And(v, mask), 0);
    } else {
      AndShifted(v / 2, mask, n - 1);
      AndHalf(v, 2 * Shl(mask, n - 1));
      ShiftStep(And(Shr(v, n), mask), n);
    }
  }

  lemma ShiftStep(v: nat, n: nat)
    ensures n == 0 ==> Shl(v, n) == v && Shr(v, n) == v
    ensures n > 0 ==> Shl(v, n) == 2 * Shl(v, n - 1) && Shr(v, n) == Shr(v / 2, n - 1)
  {
    if n > 0 {
      hide Pow2;
      Pow2Step(n);
      Swap(v, 2, Pow2(n - 1));
      DivDiv(v, 2, Pow2(n - 1));
    }
  }

  lemma Pow2Step(n: nat)
    ensures n == 0 ==> Pow2(n) == 1
    ensures n > 0 ==> Pow2(n) == 2 * Pow2(n - 1)
  {
  }

  lemma Swap(a: int, b: int, c: int)
    ensures a * (b * c) == b * (a * c)
  {
  }

  lemma AndHalf(a: nat, b: nat)
    requires b % 2 == 0
    ensures And(a, b) == 2 * And(a / 2, b / 2)
  {
  }

  // ---- The highest bit -------------------------------------------------------

  function HighBit(v: nat): (h: nat)
    requires v > 0
    ensures Pow2(h) <= v < Pow2(h + 1)
  {
    if v == 1 then 0 else HighBit(v / 2) + 1
  }

  lemma HighBitUnique(v: nat, h: nat)
    requires v > 0 && Pow2(h) <= v < Pow2(h + 1)
    ensures HighBit(v) == h
  {
    if HighBit(v) < h {
      Pow2AtMost(HighBit(v) + 1, h);
    } else if HighBit(v) > h {
      Pow2AtMost(h + 1, HighBit(v));
    }
  }

  lemma Pow2AtMost(m: nat, n: nat)
    requires m <= n
    ensures Pow2(m) <= Pow2(n)
  {
    if m < n {
      Pow2Less(m, n);
    }
  }
}
