/** Machine integers, byte-order encodings and byte memory.

    Fixed-width C integers are subset types of `int`; wherever the source can
    wrap around, the model writes the `% TWOnn` out.  Memory contents are
    `seq<u8>` values; a method that writes a C buffer holds it as `array<u8>`
    and is specified by `Blit` on the array's contents.
 */
module Bytes {
  const TWO16: int := 0x1_0000
  const TWO31: int := 0x8000_0000
  const TWO32: int := 0x1_0000_0000
  const TWO63: int := 0x8000_0000_0000_0000
  const TWO64: int := 0x1_0000_0000_0000_0000

  type u8 = x: int | 0 <= x < 0x100
  type u16 = x: int | 0 <= x < 0x1_0000
  type u32 = x: int | 0 <= x < 0x1_0000_0000
  type u64 = x: int | 0 <= x < 0x1_0000_0000_0000_0000

  /** C's number for a truth value. */
  function One(b: bool): nat { if b then 1 else 0 }

  /** `bs` stands in `mem` at offset `off`. */
  ghost predicate At(mem: seq<u8>, off: nat, bs: seq<u8>) {
    off + |bs| <= |mem| && mem[off..off + |bs|] == bs
  }

  lemma AtConcat(mem: seq<u8>, off: nat, a: seq<u8>, b: seq<u8>)
    ensures At(mem, off, a + b) <==> At(mem, off, a) && At(mem, off + |a|, b)
    ensures At(mem, off, a + b) ==> off + |a| + |b| <= |mem|
  {
    if off + |a| + |b| <= |mem| {
      var s := mem[off..off + |a| + |b|];
      assert s[..|a|] == mem[off..off + |a|];
      assert s[|a|..] == mem[off + |a|..off + |a| + |b|];
      assert (a + b)[..|a|] == a && (a + b)[|a|..] == b;
      assert s == s[..|a|] + s[|a|..];
    }
  }

  // ---- Writing -----------------------------------------------------------

  /** `mem` with the bytes `bs` stored at `off`. */
  function Blit(mem: seq<u8>, off: nat, bs: seq<u8>): (r: seq<u8>)
    requires off + |bs| <= |mem|
    ensures |r| == |mem|
    ensures At(r, off, bs)
    ensures forall i :: 0 <= i < |mem| && !(off <= i < off + |bs|) ==> r[i] == mem[i]
  {
    mem[..off] + bs + mem[off + |bs|..]
  }

  /** Disjointness of the byte ranges [a, a+m) and [b, b+n); an empty range meets nothing. */
  predicate Apart(a: nat, m: nat, b: nat, n: nat) {
    m == 0 || n == 0 || a + m <= b || b + n <= a
  }

  lemma BlitKeeps(mem: seq<u8>, off: nat, bs: seq<u8>, a: nat, n: nat)
    requires off + |bs| <= |mem| && a + n <= |mem|
    requires Apart(off, |bs|, a, n)
    ensures Blit(mem, off, bs)[a..a + n] == mem[a..a + n]
  {
    var r := Blit(mem, off, bs);
    assert forall i :: a <= i < a + n ==> r[i] == mem[i];
  }

  lemma BlitKeepsAt(mem: seq<u8>, off: nat, bs: seq<u8>, o: nat, x: seq<u8>)
    requires off + |bs| <= |mem| && At(mem, o, x) && Apart(off, |bs|, o, |x|)
    ensures At(Blit(mem, off, bs), o, x)
  {
    BlitKeeps(mem, off, bs, o, |x|);
  }

  lemma BlitNothing(b: seq<u8>, pos: nat)
    requires pos <= |b|
    ensures Blit(b, pos, []) == b
  {
  }

  lemma BlitConcat(mem: seq<u8>, off: nat, a: seq<u8>, b: seq<u8>)
    requires off + |a| + |b| <= |mem|
    ensures Blit(Blit(mem, off, a), off + |a|, b) == Blit(mem, off, a + b)
  {
    var l, r := Blit(Blit(mem, off, a), off + |a|, b), Blit(mem, off, a + b);
    assert l == mem[..off] + a + b + mem[off + |a| + |b|..];
  }

  lemma BlitCommute(mem: seq<u8>, o: nat, a: seq<u8>, p: nat, b: seq<u8>)
    requires o + |a| <= p && p + |b| <= |mem|
    ensures Blit(Blit(mem, o, a), p, b) == Blit(Blit(mem, p, b), o, a)
  {
    hide Blit, At;
    BlitPointwise(mem, o, a);
    BlitPointwise(mem, p, b);
    BlitPointwise(Blit(mem, o, a), p, b);
    BlitPointwise(Blit(mem, p, b), o, a);
  }

  lemma BlitPointwise(mem: seq<u8>, off: nat, bs: seq<u8>)
    requires off + |bs| <= |mem|
    ensures forall i :: 0 <= i < |mem| ==> Blit(mem, off, bs)[i] == if off <= i < off + |bs| then bs[i - off] else mem[i]
  {
  }

  /** `memcpy(buf + off, bs, |bs|)`. */
  method Store(buf: array<u8>, off: nat, bs: seq<u8>)
    requires off + |bs| <= buf.Length
    modifies buf
    ensures buf[..] == Blit(old(buf[..]), off, bs)
  {
    ghost var was := buf[..];
    forall i | 0 <= i < |bs| {
      buf[off + i] := bs[i];
    }
    assert buf[..off] == was[..off];
    assert buf[off..off + |bs|] == bs;
    assert buf[off + |bs|..] == was[off + |bs|..];
    assert buf[..] == buf[..off] + buf[off..off + |bs|] + buf[off + |bs|..];
  }

  // ---- Big-endian --------------------------------------------------------

  function Be32(v: u32): (s: seq<u8>)
    ensures |s| == 4
  {
    [v / 0x100_0000, v / 0x1_0000 % 0x100, v / 0x100 % 0x100, v % 0x100]
  }

  function Be32At(mem: seq<u8>, off: nat): u32
    requires off + 4 <= |mem|
  {
    mem[off] as int * 0x100_0000 + mem[off + 1] as int * 0x1_0000 + mem[off + 2] as int * 0x100 + mem[off + 3] as int
  }

  lemma Be32RoundTrip(mem: seq<u8>, off: nat, v: u32)
    requires At(mem, off, Be32(v))
    ensures Be32At(mem, off) == v
  {
    var s := mem[off..off + 4];
    assert mem[off] == s[0] && mem[off + 1] == s[1] && mem[off + 2] == s[2] && mem[off + 3] == s[3];
    assert v / 0x100 == v / 0x1_0000 * 0x100 + v / 0x100 % 0x100;
    assert v / 0x1_0000 == v / 0x100_0000 * 0x100 + v / 0x1_0000 % 0x100;
  }

  function Be64At(mem: seq<u8>, off: nat): u64
    requires off + 8 <= |mem|
  {
    Be32At(mem, off) as int * 0x1_0000_0000 + Be32At(mem, off + 4) as int
  }

  // ---- Little-endian -----------------------------------------------------

  function Le16(v: u16): (s: seq<u8>)
    ensures |s| == 2
  {
    [v % 0x100, v / 0x100]
  }

  function Le16At(mem: seq<u8>, off: nat): u16
    requires off + 2 <= |mem|
  {
    mem[off] as int + mem[off + 1] as int * 0x100
  }

  function Le32(v: u32): (s: seq<u8>)
    ensures |s| == 4
  {
    Le16(v % 0x1_0000) + Le16(v / 0x1_0000)
  }

  function Le32At(mem: seq<u8>, off: nat): u32
    requires off + 4 <= |mem|
  {
    Le16At(mem, off) as int + Le16At(mem, off + 2) as int * 0x1_0000
  }

  function Le64(v: u64): (s: seq<u8>)
    ensures |s| == 8
  {
    Le32(v % 0x1_0000_0000) + Le32(v / 0x1_0000_0000)
  }

  function Le64At(mem: seq<u8>, off: nat): u64
    requires off + 8 <= |mem|
  {
    Le32At(mem, off) as int + Le32At(mem, off + 4) as int * 0x1_0000_0000
  }

  /** The lowest byte comes first. */
  lemma LittleEndian(mem: seq<u8>, off: nat)
    requires off + 8 <= |mem|
    ensures var low := mem[off] as int + 0x100 * mem[off + 1] as int + 0x1_0000 * mem[off + 2] as int + 0x100_0000 * mem[off + 3] as int;
            var high := mem[off + 4] as int + 0x100 * mem[off + 5] as int + 0x1_0000 * mem[off + 6] as int + 0x100_0000 * mem[off + 7] as int;
            && Le32At(mem, off) as int == low && Le64At(mem, off) as int == low + 0x1_0000_0000 * high
  {
  }

  lemma Le16RoundTrip(mem: seq<u8>, off: nat, v: u16)
    requires At(mem, off, Le16(v))
    ensures Le16At(mem, off) == v
  {
    var s := mem[off..off + 2];
    assert mem[off] == s[0] && mem[off + 1] == s[1];
  }

  lemma Le32RoundTrip(mem: seq<u8>, off: nat, v: u32)
    requires At(mem, off, Le32(v))
    ensures Le32At(mem, off) == v
  {
    AtConcat(mem, off, Le16(v % 0x1_0000), Le16(v / 0x1_0000));
    Le16RoundTrip(mem, off, v % 0x1_0000);
    Le16RoundTrip(mem, off + 2, v / 0x1_0000);
  }

  lemma Le64RoundTrip(mem: seq<u8>, off: nat, v: u64)
    requires At(mem, off, Le64(v))
    ensures Le64At(mem, off) == v
  {
    AtConcat(mem, off, Le32(v % 0x1_0000_0000), Le32(v / 0x1_0000_0000));
    Le32RoundTrip(mem, off, v % 0x1_0000_0000);
    Le32RoundTrip(mem, off + 4, v / 0x1_0000_0000);
  }

  // Reads outside a blitted range see the old memory.

  lemma Le16Kept(mem: seq<u8>, off: nat, bs: seq<u8>, a: nat)
    requires off + |bs| <= |mem| && a + 2 <= |mem|
    requires Apart(off, |bs|, a, 2)
    ensures Le16At(Blit(mem, off, bs), a) == Le16At(mem, a)
  {
  }

  lemma Le32Kept(mem: seq<u8>, off: nat, bs: seq<u8>, a: nat)
    requires off + |bs| <= |mem| && a + 4 <= |mem|
    requires Apart(off, |bs|, a, 4)
    ensures Le32At(Blit(mem, off, bs), a) == Le32At(mem, a)
  {
  }

  lemma Le64Kept(mem: seq<u8>, off: nat, bs: seq<u8>, a: nat)
    requires off + |bs| <= |mem| && a + 8 <= |mem|
    requires Apart(off, |bs|, a, 8)
    ensures Le64At(Blit(mem, off, bs), a) == Le64At(mem, a)
  {
  }

  // ---- 64-bit registers written in halves -----------------------------------

  function SetLow(a: u64, v: u64): u64 {
    a / 0x1_0000_0000 * 0x1_0000_0000 + v % 0x1_0000_0000
  }

  function SetHigh(a: u64, v: u64): u64 {
    a % 0x1_0000_0000 + v % 0x1_0000_0000 * 0x1_0000_0000
  }

  lemma WordsOf(high: nat, low: nat)
    requires low < 0x1_0000_0000
    ensures (high * 0x1_0000_0000 + low) / 0x1_0000_0000 == high && (high * 0x1_0000_0000 + low) % 0x1_0000_0000 == low
  {
  }

  /** Writing both halves replaces the register. */
  lemma HalvesMeet(a: u64, was: u64)
    ensures SetHigh(SetLow(was, a % 0x1_0000_0000), a / 0x1_0000_0000) == a
  {
    WordsOf(was / 0x1_0000_0000, a % 0x1_0000_0000);
  }

  // ---- Memories that agree in part ----------------------------------------

  ghost predicate SameIn(a: seq<u8>, b: seq<u8>, lo: nat, n: nat) {
    |a| == |b| && lo + n <= |a| && forall x :: lo <= x < lo + n ==> a[x] == b[x]
  }

  ghost predicate SameOutside(a: seq<u8>, b: seq<u8>, lo: nat, n: nat) {
    |a| == |b| && forall x :: 0 <= x < |a| && !(lo <= x < lo + n) ==> a[x] == b[x]
  }

  lemma SameInReads(a: seq<u8>, b: seq<u8>, lo: nat, n: nat)
    requires SameIn(a, b, lo, n)
    ensures forall x :: lo <= x && x + 2 <= lo + n ==> Le16At(a, x) == Le16At(b, x)
    ensures forall x :: lo <= x && x + 4 <= lo + n ==> Le32At(a, x) == Le32At(b, x)
    ensures forall x :: lo <= x && x + 8 <= lo + n ==> Le64At(a, x) == Le64At(b, x)
  {
  }

  lemma SliceOutside(a: seq<u8>, b: seq<u8>, off: nat, m: nat, lo: nat, n: nat)
    requires SameOutside(a, b, lo, n) && off + m <= |a| && Apart(off, m, lo, n)
    ensures a[off..off + m] == b[off..off + m]
  {
  }

  lemma BlitOutside(a: seq<u8>, b: seq<u8>, off: nat, bs: seq<u8>, lo: nat, n: nat)
    requires SameOutside(a, b, lo, n) && off + |bs| <= |a|
    ensures SameOutside(Blit(a, off, bs), Blit(b, off, bs), lo, n)
  {
    var x, y := Blit(a, off, bs), Blit(b, off, bs);
    forall i | 0 <= i < |a| && !(lo <= i < lo + n) ensures x[i] == y[i] {
      if off <= i < off + |bs| {
        assert x[i] == x[off..off + |bs|][i - off] && y[i] == y[off..off + |bs|][i - off];
      }
    }
  }

  lemma SameAt(a: seq<u8>, b: seq<u8>, off: nat, bs: seq<u8>)
    requires SameIn(a, b, off, |bs|) && At(b, off, bs)
    ensures At(a, off, bs)
  {
    assert a[off..off + |bs|] == b[off..off + |bs|];
  }

  lemma SameInTrans(a: seq<u8>, b: seq<u8>, c: seq<u8>, lo: nat, n: nat)
    requires SameIn(a, b, lo, n) && SameIn(b, c, lo, n)
    ensures SameIn(a, c, lo, n)
  {
  }

  lemma SizeAlike(a: seq<u8>, b: seq<u8>, lo: nat, n: nat)
    requires SameOutside(a, b, lo, n)
    ensures |a| == |b|
  {
  }

  lemma SameInSelf(a: seq<u8>, lo: nat, n: nat)
    requires lo + n <= |a|
    ensures SameIn(a, a, lo, n)
  {
  }

  lemma BlitSame(mem: seq<u8>, off: nat, bs: seq<u8>, lo: nat, n: nat)
    requires off + |bs| <= |mem| && lo + n <= |mem| && Apart(off, |bs|, lo, n)
    ensures SameIn(Blit(mem, off, bs), mem, lo, n)
  {
  }

  // ---- C strings ---------------------------------------------------------

  /** Position of the first NUL of `mem` at or after `off`, or |mem| when there is none. */
  function NulPos(mem: seq<u8>, off: nat): (p: nat)
    requires off <= |mem|
    ensures off <= p <= |mem|
    ensures forall i :: off <= i < p ==> mem[i] != 0
    ensures p < |mem| ==> mem[p] == 0
    decreases |mem| - off
  {
    if off == |mem| || mem[off] == 0 then off else NulPos(mem, off + 1)
  }

  /** The C string that starts at `off`. */
  function CStrAt(mem: seq<u8>, off: nat): (s: seq<u8>)
    requires off <= |mem|
    ensures 0 !in s
  {
    mem[off..NulPos(mem, off)]
  }

  /** `strlen(s) + 1` bytes of `s`. */
  function CStr(s: seq<u8>): (r: seq<u8>)
    ensures |r| == |s| + 1
  {
    s + [0]
  }

  lemma CStrRoundTrip(mem: seq<u8>, off: nat, s: seq<u8>)
    requires At(mem, off, CStr(s)) && 0 !in s
    ensures NulPos(mem, off) == off + |s|
    ensures CStrAt(mem, off) == s
  {
    var p := NulPos(mem, off);
    var w := mem[off..off + |s| + 1];
    assert forall i :: 0 <= i < |s| ==> mem[off + i] == w[i] == s[i];
    assert mem[off + |s|] == w[|s|] == 0;
    assert mem[off..off + |s|] == w[..|s|] == s;
  }

  /** Zero bytes. */
  function Zeros(n: nat): (s: seq<u8>)
    ensures |s| == n && forall i :: 0 <= i < n ==> s[i] == 0
  {
    seq(n, _ => 0)
  }

  /** A string without NUL whose characters are bytes. */
  predicate Plain(s: string) {
    forall i :: 0 <= i < |s| ==> 0 < s[i] as int < 0x100
  }

  /** The bytes of a string literal, without its NUL. */
  function Ascii(s: string): (r: seq<u8>)
    requires Plain(s)
    ensures |r| == |s| && 0 !in r
    ensures forall i :: 0 <= i < |s| ==> r[i] == s[i] as int
  {
    seq<u8>(|s|, i requires 0 <= i < |s| => s[i] as u8)
  }
}
