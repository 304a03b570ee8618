/** The A64 bitmask-immediate helpers of hypervisor/tcg/tcg_decode.c (Arm DDI 0487, DecodeBitMasks). */
module LogicalImm {
  import opened Bytes
  import opened Bits
  import opened ModArith

  // ---- Leading zeros -----------------------------------------------------------

  /** The number of leading zeros of a 32-bit word. */
  function Clz(x: u32): (n: nat)
    ensures n <= 32
  {
    if x == 0 then 32
    else
      Pow2Values();
      HighBitBelow(x, 32);
      31 - HighBit(x)
  }

  lemma HighBitBelow(x: nat, n: nat)
    requires 0 < x < Pow2(n)
    ensures HighBit(x) < n
  {
    if HighBit(x) >= n {
      Pow2AtMost(n, HighBit(x));
    }
  }

  /** Testing the k highest bits of a 32-bit word with a mask. */
  lemma TopBitsClear(x: u32, k: nat)
    requires 1 <= k <= 32
    ensures And(x, Shl(Pow2(k) - 1, 32 - k)) == 0 <==> (x as int) < Pow2(32 - k)
  {
    hide Shl, Shr, And, Pow2;
    var m := 32 - k;
    Pow2Values();
    Pow2Add(k, m);
    AndShifted(x, Pow2(k) - 1, m);
    LowMask(Shr(x, m), k);
    ShrBelow(x, m, Pow2(k));
    SmallMod(Shr(x, m), Pow2(k));
    ShlZero(Shr(x, m), m);
  }

  lemma SmallMod(v: nat, n: nat)
    requires v < n
    ensures v % n == v
  {
  }

  lemma ShrBelow(x: nat, m: nat, q: nat)
    requires x < q * Pow2(m)
    ensures Shr(x, m) < q
    ensures Shr(x, m) == 0 <==> x < Pow2(m)
  {
    hide Pow2;
    var p := Pow2(m);
    assert x == p * (x / p) + x % p;
    if x / p >= q {
      assert p * (x / p) >= p * q;
    }
    if x < p {
      DivModUnique(x, p, 0, x);
    }
  }

  lemma ShlZero(v: nat, m: nat)
    ensures Shl(v, m) == 0 <==> v == 0
  {
  }

  /** The five tests of clz32. */
  lemma ClzTests(x: u32)
    ensures And(x, 0xFFFF_0000) == 0 <==> x < 0x1_0000
    ensures And(x, 0xFF00_0000) == 0 <==> x < 0x100_0000
    ensures And(x, 0xF000_0000) == 0 <==> x < 0x1000_0000
    ensures And(x, 0xC000_0000) == 0 <==> x < 0x4000_0000
    ensures And(x, 0x8000_0000) == 0 <==> x < 0x8000_0000
  {
    hide And, Pow2;
    ClzMasks();
    TopBitsClear(x, 16);
    TopBitsClear(x, 8);
    TopBitsClear(x, 4);
    TopBitsClear(x, 2);
    TopBitsClear(x, 1);
  }

  lemma ClzMasks()
    ensures Shl(Pow2(16) - 1, 16) == 0xFFFF_0000 && Pow2(16) == 0x1_0000
    ensures Shl(Pow2(8) - 1, 24) == 0xFF00_0000 && Pow2(24) == 0x100_0000
    ensures Shl(Pow2(4) - 1, 28) == 0xF000_0000 && Pow2(28) == 0x1000_0000
    ensures Shl(Pow2(2) - 1, 30) == 0xC000_0000 && Pow2(30) == 0x4000_0000
    ensures Shl(Pow2(1) - 1, 31) == 0x8000_0000 && Pow2(31) == 0x8000_0000
  {
    hide Pow2;
    Pow2Values();
    Pow2Add(16, 8);
    Pow2Add(28, 2);
  }

  /** A shift distance that brings the top bit to position 31 is the number of leading zeros. */
  lemma ClzUnique(x: u32, n: nat)
    requires x > 0 && n <= 31 && TWO31 <= x as int * Pow2(n) < TWO32
    ensures Clz(x) == n
  {
    hide Pow2;
    var p := Pow2(n);
    Pow2Values();
    Pow2Add(31 - n, n);
    Pow2Add(32 - n, n);
    MulCancel(Pow2(31 - n), x as int, p);
    MulCancel(x as int + 1, Pow2(32 - n), p);
    HighBitUnique(x, 31 - n);
  }

  lemma MulCancel(a: int, b: int, p: nat)
    requires p > 0
    ensures a * p <= b * p ==> a <= b
    ensures (a - 1) * p < b * p ==> a - 1 < b
  {
  }

  /** One step of clz32: when the k bits under the mask are clear, k zeros are counted and the word moves up. */
  method ClzStep(ghost x: u32, y0: u32, n0: nat, mask: u32, k: nat, ghost low: nat, ghost high: nat) returns (y: u32, n: nat)
    requires y0 as int == x as int * Pow2(n0) >= low
    requires And(y0, mask) == 0 <==> y0 as int < high
    requires high * Pow2(k) == TWO32 && low * Pow2(k) >= high
    ensures y as int == x as int * Pow2(n) >= high && n0 <= n <= n0 + k
  {
    hide And, Pow2;
    y, n := y0, n0;
    if And(y, mask) == 0 {
      n := n + k;
      ShiftUp(x, y0, n0, k, low, high);
      y := y as int * Pow2(k) % TWO32;
    }
  }

  lemma ShiftUp(x: u32, y: u32, n: nat, k: nat, low: nat, high: nat)
    requires y as int == x as int * Pow2(n) && low <= (y as int) < high
    requires high * Pow2(k) == TWO32 && low * Pow2(k) >= high
    ensures y as int * Pow2(k) == x as int * Pow2(n + k)
    ensures high <= y as int * Pow2(k) < TWO32
  {
    hide Pow2;
    Pow2Add(n, k);
    Assoc(x as int, Pow2(n), Pow2(k));
    MulBetween(low, y as int, high, Pow2(k));
  }

  lemma MulBetween(a: int, b: int, c: int, p: nat)
    requires a <= b < c && p > 0
    ensures a * p <= b * p < c * p
  {
  }

  /** clz32 */
  method Clz32(x: u32) returns (n: nat)
    ensures n == Clz(x)
  {
    if x == 0 { return 32; }
    hide And, Clz, Pow2;
    Pow2Values();
    Pow2Step(0);
    var y: u32 := x;
    n := 0;
    ClzTests(y);
    y, n := ClzStep(x, y, n, 0xFFFF_0000, 16, 1, 0x1_0000);
    ClzTests(y);
    y, n := ClzStep(x, y, n, 0xFF00_0000, 8, 0x1_0000, 0x100_0000);
    ClzTests(y);
    y, n := ClzStep(x, y, n, 0xF000_0000, 4, 0x100_0000, 0x1000_0000);
    ClzTests(y);
    y, n := ClzStep(x, y, n, 0xC000_0000, 2, 0x1000_0000, 0x4000_0000);
    ClzTests(y);
    y, n := ClzStep(x, y, n, 0x8000_0000, 1, 0x4000_0000, 0x8000_0000);
    ClzUnique(x, n);
  }

  // ---- Rotation ------------------------------------------------------------------

  /** ror64: right rotation inside a window of `size` bits. */
  function Ror(val: u64, amt: nat, size: nat): u64
    requires amt <= size <= 64
  {
    if amt == 0 || size <= 1 then val
    else
      var mask := Pow2(size) - 1;
      var v := And(val, mask);
      RorFits(Or(Shr(v, amt), Shl(v, size - amt) % TWO64), size);
      And(Or(Shr(v, amt), Shl(v, size - amt) % TWO64), mask)
  }

  lemma RorFits(w: nat, size: nat)
    requires size <= 64
    ensures And(w, Pow2(size) - 1) < Pow2(size) <= TWO64
  {
    hide And, Pow2;
    LowMask(w, size);
    Pow2Values();
    Pow2AtMost(size, 64);
  }

  /** Bit i of the rotated element is bit i + amt of the element, around the window. */
  lemma RorBit(val: u64, amt: nat, size: nat, i: nat)
    requires amt < size <= 64 && (val as int) < Pow2(size)
    ensures Bit(Ror(val, amt, size), i) <==> i < size && Bit(val, (i + amt) % size)
  {
    hide Bit, And, Or, Shl, Shr, Pow2;
    if amt == 0 || size <= 1 {
      Wrap(i, amt, size);
      if i >= size { HighBits(val, size, i); }
    } else {
      LowMask(val, size);
      SmallMod(val, Pow2(size));
      var a, b := Shr(val, amt), Shl(val, size - amt) % TWO64;
      LowMask(Or(a, b), size);
      BitMod(Or(a, b), size, i);
      BitOr(a, b, i);
      BitDiv(val, amt, i);
      ShlBit(val, size - amt, i);
      Wrap(i, amt, size);
      if i + amt >= size { HighBits(val, size, i + amt); }
    }
  }

  lemma Wrap(i: nat, amt: nat, size: nat)
    requires amt < size
    ensures i < size ==> (i + amt) % size == if i + amt < size then i + amt else i + amt - size
  {
  }

  /** A 64-bit left shift. */
  lemma ShlBit(v: nat, n: nat, i: nat)
    ensures i < 64 ==> Bit(Shl(v, n) % TWO64, i) == (i >= n && Bit(v, i - n))
  {
    hide Bit, Pow2;
    Pow2Values();
    Pow2Values();
    BitMod(Shl(v, n), 64, i);
    BitSplit(v, 0, n, i);
    ZeroBits(i);
  }

  // ---- Replication ---------------------------------------------------------------

  /** Bit by bit, `r` repeats the `size` low bits of `elem` over `n` bits. */
  ghost predicate Repeats(r: nat, n: nat, elem: nat, size: nat)
    requires size > 0
  {
    && r < Pow2(n)
    && forall i :: 0 <= i < n ==> (Bit(r, i) <==> Bit(elem, i % size))
  }

  /** One doubling: `pattern |= pattern << size`. */
  lemma Doubling(r: u64, n: nat, elem: nat, size: nat)
    requires size > 0 && n > 0 && n % size == 0 && 2 * n <= 64 && Repeats(r, n, elem, size)
    ensures Repeats(Or(r, Shl(r, n) % TWO64), 2 * n, elem, size)
  {
    hide Bit, Or, Shl, Pow2;
    var b := Shl(r, n) % TWO64;
    DoubleBound(r, n);
    forall i | 0 <= i < 2 * n ensures Bit(Or(r, b), i) <==> Bit(elem, i % size) {
      BitOr(r, b, i);
      ShlBit(r, n, i);
      if i >= n {
        HighBits(r, n, i);
        assert i == size * (n / size) + (i - n);
        ModShift(i - n, size, n / size);
      }
    }
  }

  lemma DoubleBound(r: u64, n: nat)
    requires 2 * n <= 64 && (r as int) < Pow2(n)
    ensures Or(r, Shl(r, n) % TWO64) < Pow2(2 * n) <= TWO64
  {
    hide Or, Pow2;
    ShiftedBelow(r, n);
    assert Pow2(2 * n) <= TWO64 by {
      Pow2Values();
      Pow2AtMost(2 * n, 64);
    }
    Pow2AtMost(n, 2 * n);
    SmallMod(Shl(r, n), TWO64);
    OrBound(r, Shl(r, n), 2 * n);
  }

  lemma ShiftedBelow(v: nat, n: nat)
    requires v < Pow2(n)
    ensures Shl(v, n) < Pow2(2 * n)
  {
    hide Pow2;
    Pow2Add(n, n);
    ProductBelow(v, Pow2(n));
  }

  lemma ProductBelow(v: nat, q: nat)
    requires v < q
    ensures v * q < q * q
  {
    MulAtLeast(q, q - v);
    assert q * (q - v) == q * q - q * v;
  }

  /** The doubling loop of logical_imm_decode, for an element of any power-of-two width and any bits. */
  method Replicate(elem: u64, e: nat, f: nat) returns (r: u64)
    requires e <= f <= 6 && (elem as int) < Pow2(Pow2(e))
    ensures Repeats(r, Pow2(f), elem, Pow2(e))
  {
    hide Or, Shl, Bit, Pow2;
    Pow2Values();
    Pow2Step(0);
    var size, regSize := Pow2(e), Pow2(f);
    ghost var k := e;
    r := elem;
    RepeatsOnce(elem, size);
    Pow2AtMost(f, 6);
    while size < regSize
      invariant e <= k <= f && size == Pow2(k) && Repeats(r, size, elem, Pow2(e))
      decreases regSize - size
    {
      if k == f { assert false; }
      Pow2Step(k + 1);
      Pow2AtMost(k + 1, f);
      Pow2Multiple(e, k);
      Doubling(r, size, elem, Pow2(e));
      DoubleBound(r, size);
      r := Or(r, Shl(r, size) % TWO64);
      size := 2 * size;
      k := k + 1;
    }
    Pow2AtMost(k, f);
    if k < f {
      Pow2Less(k, f);
    }
  }

  lemma RepeatsOnce(elem: nat, size: nat)
    requires size > 0 && elem < Pow2(size)
    ensures Repeats(elem, size, elem, size)
  {
    forall i | 0 <= i < size ensures i % size == i {
      SmallMod(i, size);
    }
  }

  lemma Pow2Multiple(e: nat, k: nat)
    requires e <= k
    ensures Pow2(k) % Pow2(e) == 0
  {
    hide Pow2;
    Pow2Add(e, k - e);
    ModShift(0, Pow2(e), Pow2(k - e));
    SmallMod(0, Pow2(e));
  }

  // ---- Encodings -----------------------------------------------------------------

  /** `(N << 6) | (~imms & 0x3f)` */
  function SizeWord(n: u32, imms: u32): u32
    requires n < 2
  {
    SizeWordFits(n, imms);
    Or(Shl(n, 6), AndNot(0x3F, imms))
  }

  lemma SizeWordFits(n: u32, imms: u32)
    requires n < 2
    ensures Or(Shl(n, 6), AndNot(0x3F, imms)) < 0x80
    ensures n == 0 ==> Or(Shl(n, 6), AndNot(0x3F, imms)) < 0x40
  {
    hide Or, AndNot, Pow2;
    Pow2Values();
    Pow2Add(6, 1);
    AndNotBound(0x3F, imms);
    OrBound(Shl(n, 6), AndNot(0x3F, imms), 7);
    if n == 0 {
      OrBound(0, AndNot(0x3F, imms), 6);
    }
  }

  /** log2 of the element size that an encoding selects */
  function SizeLog(n: u32, imms: u32): (e: nat)
    requires n < 2 && SizeWord(n, imms) != 0
    ensures e <= 6 && (n == 0 ==> e <= 5)
  {
    SizeLogFits(n, imms);
    31 - Clz(SizeWord(n, imms))
  }

  lemma SizeLogFits(n: u32, imms: u32)
    requires n < 2 && SizeWord(n, imms) != 0
    ensures 25 <= Clz(SizeWord(n, imms)) <= 31
    ensures n == 0 ==> 26 <= Clz(SizeWord(n, imms))
  {
    hide Or, AndNot, Pow2, HighBit;
    SizeWordFits(n, imms);
    Pow2Values();
    Pow2Add(6, 1);
    HighBitBelow(SizeWord(n, imms), 7);
    if n == 0 {
      HighBitBelow(SizeWord(n, imms), 6);
    }
  }

  /** logical_imm_valid */
  predicate Valid(n: u32, imms: u32, sf: bool)
    requires n < 2
  {
    if !sf && n != 0 then false
    else if Clz(SizeWord(n, imms)) == 32 then false
    else
      var size := Pow2(31 - Clz(SizeWord(n, imms)));
      And(imms, size - 1) != size - 1
  }

  function Size(n: u32, imms: u32): (s: nat)
    requires n < 2 && SizeWord(n, imms) != 0
    ensures 0 < s
  {
    Pow2(SizeLog(n, imms))
  }

  lemma OnesBit(n: nat, i: nat)
    ensures Bit(Pow2(n) - 1, i) <==> i < n
    decreases n
  {
    hide Bit;
    if i == 0 {
      BitHead(Pow2(n) - 1);
    } else {
      BitTail(Pow2(n) - 1, i - 1);
      if n == 0 {
        ZeroBits(i);
      } else {
        assert (Pow2(n) - 1) / 2 == Pow2(n - 1) - 1;
        OnesBit(n - 1, i - 1);
      }
    }
  }

  lemma ValidParts(n: u32, imms: u32, sf: bool)
    requires n < 2 && Valid(n, imms, sf)
    ensures SizeWord(n, imms) != 0
    ensures SizeLog(n, imms) <= (if sf then 6 else 5)
    ensures 2 <= Size(n, imms) <= 64
    ensures imms as int % Size(n, imms) < Size(n, imms) - 1
  {
    hide And, Or, Pow2, HighBit, SizeWord;
    Pow2Values();
    Pow2Step(0);
    LowMask(imms, SizeLog(n, imms));
    Pow2AtMost(SizeLog(n, imms), 6);
    if SizeLog(n, imms) > 0 {
      Pow2AtMost(1, SizeLog(n, imms));
    }
  }

  /** logical_imm_decode.  For every encoding that logical_imm_valid accepts, bit i of the result is set
      exactly when its place in the rotated element falls in the run of ones. */
  method Decode(n: u32, immr: u32, imms: u32, sf: bool) returns (r: u64)
    requires n < 2 && Valid(n, imms, sf)
    ensures SizeWord(n, imms) != 0
    ensures var size, regSize := Size(n, imms), if sf then 64 else 32;
            && r as int < Pow2(regSize)
            && (forall i :: 0 <= i < regSize ==>
                 (Bit(r, i) <==> (i + immr as int % size) % size <= imms as int % size))
            && r != 0 && r as int != Pow2(regSize) - 1
  {
    hide And, Or, Shl, Bit, Pow2, Ror, SizeWord, HighBit;
    ValidParts(n, imms, sf);
    Pow2Values();
    var lz := Clz32(SizeWord(n, imms));
    var size := Pow2(31 - lz);
    var rot, run := And(immr, size - 1), And(imms, size - 1);
    LowMask(immr, 31 - lz);
    LowMask(imms, 31 - lz);
    Pow2Less(run + 1, size);
    Pow2AtMost(size, 64);
    var pattern := Pow2(run + 1) - 1;
    pattern := Ror(pattern, rot, size);
    assert pattern == Element(run, rot, size);
    ElementBits(run, rot, size);
    var regLog := if sf then 6 else 5;
    r := Replicate(pattern, 31 - lz, regLog);
    if !sf {
      LowMask(r, 32);
      SmallMod(r, Pow2(32));
      r := And(r, 0xFFFF_FFFF);
    }
    forall i | 0 <= i < Pow2(regLog) ensures Bit(r, i) <==> (i + rot) % size <= run {
      Around(i, rot, size);
    }
    NeverTrivial(r, Pow2(regLog), size, rot, run);
  }

  /** The element of an encoding: `run + 1` ones, rotated right by `rot`, over `size` bits. */
  function Element(run: nat, rot: nat, size: nat): u64
    requires run + 1 < size <= 64 && rot < size
  {
    OnesFit(run + 1, size);
    Ror(Pow2(run + 1) - 1, rot, size)
  }

  lemma OnesFit(n: nat, size: nat)
    requires n < size <= 64
    ensures Pow2(n) - 1 < Pow2(size) && Pow2(n) <= TWO64
  {
    hide Pow2;
    Pow2Less(n, size);
    Pow2AtMost(size, 64);
    Pow2Values();
  }

  /** The rotated run of ones, bit by bit. */
  lemma ElementBits(run: nat, rot: nat, size: nat)
    requires run + 1 < size <= 64 && rot < size
    ensures Element(run, rot, size) as int < Pow2(size)
    ensures forall j :: 0 <= j < size ==> (Bit(Element(run, rot, size), j) <==> (j + rot) % size <= run)
  {
    hide Bit, Pow2, Ror;
    OnesFit(run + 1, size);
    var el := Element(run, rot, size);
    forall j | 0 <= j < size ensures Bit(el, j) <==> (j + rot) % size <= run {
      RorBit(Pow2(run + 1) - 1, rot, size, j);
      OnesBit(run + 1, (j + rot) % size);
    }
    RorBound(Pow2(run + 1) - 1, rot, size);
  }

  lemma RorBound(val: u64, amt: nat, size: nat)
    requires amt < size <= 64 && (val as int) < Pow2(size)
    ensures Ror(val, amt, size) as int < Pow2(size)
  {
    hide And, Or, Shl, Shr, Pow2;
    if amt > 0 && size > 1 {
      RorFits(Or(Shr(val, amt), Shl(val, size - amt) % TWO64), size);
      LowMask(val, size);
      SmallMod(val, Pow2(size));
    }
  }

  lemma Around(i: nat, rot: nat, size: nat)
    requires size > 0
    ensures (i % size + rot) % size == (i + rot) % size
  {
    assert i + rot == size * (i / size) + (i % size + rot);
    ModShift(i % size + rot, size, i / size);
  }

  /** A decoded immediate is neither zero nor all ones. */
  lemma NeverTrivial(r: nat, regSize: nat, size: nat, rot: nat, run: nat)
    requires 0 < size <= regSize && rot < size && run < size - 1
    requires forall i :: 0 <= i < regSize ==> (Bit(r, i) <==> (i + rot) % size <= run)
    ensures r != 0 && r != Pow2(regSize) - 1
  {
    hide Bit, Pow2;
    var zero, one := (size - rot) % size, (2 * size - 1 - rot) % size;
    Around(size - rot, rot, size);
    Around(2 * size - 1 - rot, rot, size);
    ModShift(0, size, 1);
    ModShift(size - 1, size, 1);
    SmallMod(0, size);
    SmallMod(size - 1, size);
    assert Bit(r, zero) && !Bit(r, one);
    ZeroBits(zero);
    OnesBit(regSize, one);
  }

  // ---- Every rotated run has an encoding --------------------------------------------

  lemma {:induction false} Complement(n: nat, v: nat)
    requires v < Pow2(n)
    ensures AndNot(Pow2(n) - 1, v) == Pow2(n) - 1 - v
    decreases n
  {
    if n > 0 {
      Complement(n - 1, v / 2);
      assert (Pow2(n) - 1) / 2 == Pow2(n - 1) - 1 && (Pow2(n) - 1) % 2 == 1;
    }
  }

  /** The encoding of `run + 1` ones in elements of 2^e bits. */
  function EncodeN(e: nat): u32 { if e == 6 then 1 else 0 }

  function EncodeImms(e: nat, run: nat): u32
    requires 1 <= e <= 6 && run < Pow2(e) - 1
  {
    Pow2Values();
    Pow2AtMost(e, 6);
    if e == 6 then run else
      Pow2AtMost(e, 5);
      64 - 2 * Pow2(e) + run
  }

  /** The highest bit of an encoding's size word is the element's. */
  lemma WordSpan(e: nat, run: nat)
    requires 1 <= e <= 6 && run < Pow2(e) - 1
    ensures var word := SizeWord(EncodeN(e), EncodeImms(e, run)) as int; Pow2(e) <= word < Pow2(e + 1)
  {
    hide And, Or, AndNot, Shl, Pow2, HighBit;
    var n, imms := EncodeN(e), EncodeImms(e, run);
    Pow2Values();
    Pow2AtMost(e, 6);
    Complement(6, imms);
    OrAdds(n, 63 - imms as int, 6);
    WordValue(n, imms);
    Pow2Step(e + 1);
  }

  /** Every element size of at least two bits and every run that leaves a zero is encodable, and the
      encoding selects exactly that size and run. */
  lemma EncodingExists(e: nat, run: nat, sf: bool)
    requires 1 <= e <= (if sf then 6 else 5) && run < Pow2(e) - 1
    ensures var n, imms := EncodeN(e), EncodeImms(e, run);
            && Valid(n, imms, sf) && SizeWord(n, imms) != 0
            && Size(n, imms) == Pow2(e) && imms as int % Size(n, imms) == run
  {
    hide Pow2, SizeWord, EncodeImms, Valid, Size;
    WordSpan(e, run);
    SizeIs(EncodeN(e), EncodeImms(e, run), e, sf);
    RunPart(e, run);
  }

  /** What a size word between two powers of two selects. */
  lemma SizeIs(n: u32, imms: u32, e: nat, sf: bool)
    requires n < 2 && Pow2(e) <= SizeWord(n, imms) as int < Pow2(e + 1)
    ensures SizeWord(n, imms) != 0 && Size(n, imms) == Pow2(e)
    ensures Valid(n, imms, sf) <==> (sf || n == 0) && imms as int % Pow2(e) != Pow2(e) - 1
  {
    hide And, Pow2, HighBit, SizeWord;
    HighBitUnique(SizeWord(n, imms), e);
    LowMask(imms, e);
  }

  lemma WordValue(n: u32, imms: u32)
    requires n < 2 && imms < 64
    requires AndNot(0x3F, imms) == 63 - imms as int && Or(n as int * Pow2(6), 63 - imms as int) == n as int * Pow2(6) + 63 - imms as int
    ensures SizeWord(n, imms) as int == n as int * 64 + 63 - imms as int
  {
    hide Or, AndNot, Pow2;
    Pow2Values();
  }

  lemma RunPart(e: nat, run: nat)
    requires 1 <= e <= 6 && run < Pow2(e) - 1
    ensures EncodeImms(e, run) as int % Pow2(e) == run
  {
    hide Pow2;
    Pow2Values();
    if e == 6 {
      SmallMod(run, 64);
    } else {
      Pow2AtMost(e, 5);
      Pow2Add(e, 6 - e);
      assert 64 - 2 * Pow2(e) + run == Pow2(e) * (Pow2(6 - e) - 2) + run;
      ModShift(run, Pow2(e), Pow2(6 - e) - 2);
      SmallMod(run, Pow2(e));
    }
  }
}
